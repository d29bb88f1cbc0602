# Verification of the simulator and the bare-metal C library

This project models the simulation infrastructure under `verilate/` and the C library and bit-count benchmark
under `vivado/test5/soft/perf_func/`, and proves what their comments, assertions and callers rely on.

| module | what it models |
|---|---|
| `Common` | the 32-bit word, the option type and the like, shared by all |
| `FreeList`, `Heap`, `Allocator`, `HeapTheorems` | the first-fit allocator: a circular, address-ordered free list with a rover, tail splitting, two-sided coalescing and growth |
| `Axi` | the wrapping-burst address generator |
| `CBus`, `Bursts` | the two-phase CBus memory device under arbitrary pauses, against bursts executed atomically |
| `Confreg`, `RefCpu`, `Panel` | the CONFREG peripheral with its reader thread, the simulation tick that clocks it with the device, and what leaves it |
| `LoadOps`, `DBusPipeline`, `PipelineTheorems` | data placement and the pipelined DBus driver, against one-at-a-time execution |
| `WorkerPool` | the parallel test runner: master, workers, pipes, crashes |
| `BlockMemory`, `LineBuffer` | the word memory as a byte array, and the one-line cache model over it |
| `DataPath` | the helpers, the pipeline and a block memory together, against accesses to an array of bytes |
| `Strtoul`, `Atob`, `Numerals`, `Strtok` | number parsing and printing, both against tables of digits, and tokenizing |
| `Irq` | interrupt registration and dispatch |
| `Bitcount` | the bit counters |

Addresses and sizes in the allocator are counted in 8-byte headers. `long` is 32 bits wide. What the source updates
in place is a class whose methods are proved against functions on values; the theorems are about those functions,
over every input, schedule or run. Runs are sequences of states or of events. The memory behind the CBus device is a
value of any type with a load (which may change it, as a FIFO does) and a store.

Where the code does not do what it is meant to, the code is modelled, and the exact condition is proved:

- In the topmost window of the address space the upper wrap boundary becomes 0 and the burst addresses go wrong
  (`Axi.AsSpecifiedExactly`, `Axi.TopWindowGoesWrong`).
- `strtoul` assigns the outcome of a comparison, so it misses `0X` in base 16; it also differs from the standard when
  no digits follow (`Strtoul.StandardExactly`, `Strtoul.UpperCasePrefixIsMissed`).
- `malloc` rounds requests within 7 of 2^32 down to a block that is too small (`Allocator.UnitsSuffice`,
  `Allocator.HugeRequestIsOneUnit`), and nothing stops the heap from growing over `base`
  (`HeapTheorems.MallocNeedsRoom`, `HeapTheorems.GrowthSwallowsBase`).
- `atob` knows no digits above f and no sign (`Atob.AtobOfBtoa`, `Atob.AtobRefusesG`, `Atob.AtobOfSignedBtoa`).
- `ntbl_bitcnt` never returns for a negative argument (`Bitcount.NtblBitcntReturnsExactly`,
  `Bitcount.SignBitNeverReturns`).
- The reset of CONFREG leaves stores queued, which then overwrite the reset values
  (`RefCpu.ResetIsCompleteExactly`).
- An interrupt of a line without a handler calls through a null pointer (`Irq.HaltsExactly`).

## Model

| member | source | states |
|---|---|---|
| `Allocator.UnitsSuffice` | vivado/test5/soft/perf_func/lib/malloc.c:73 | the unit count is at least 1, and covers the request and its header exactly when rounding up stays below 2^32 |
| `Allocator.UnitsAreLeast` | vivado/test5/soft/perf_func/lib/malloc.c:73 | the unit count is a header and the least whole number of 8-byte units for the request, below 2^32 - 7 bytes, and 1 above; no other count is |
| `Allocator.RoundUpIsLeast` | vivado/test5/soft/perf_func/lib/malloc.c:104 | growth is by the least multiple of 128 units that covers the request |
| `Allocator.HugeRequestIsOneUnit` | vivado/test5/soft/perf_func/lib/malloc.c:73 | a request of 0xfffffff9 bytes is given one unit, which is all header |
| `Allocator.Arena.constructor` | vivado/test5/soft/perf_func/lib/malloc.c:47-59 | the arena starts as a heap with no free list, no block handed out, and the break at its first address |
| `Allocator.Arena.Sbrk` | vivado/test5/soft/perf_func/lib/malloc.c:59-65 | returns the old break and moves it up by the units asked for |
| `Allocator.Arena.Malloc` | vivado/test5/soft/perf_func/lib/malloc.c:67-94 | the block handed out has 8 (size - 2) < nbytes <= 8 (size - 1), or size 1 for requests within 7 of 2^32; it comes from the first node, on the way round from the rover's successor, that is big enough, after the heap has grown, once and by a multiple of 128 units, when and only when none is; the writes complete one malloc step; it terminates; the heap invariant holds again |
| `Allocator.Arena.Find` | vivado/test5/soft/perf_func/lib/malloc.c:78-92 | the walk looks at each node at most once before the heap grows, and at most once after, and grows it at most once; it ends at the first fit even when the new units were merged into the node that the rover then points to |
| `Allocator.Arena.Morecore` | vivado/test5/soft/perf_func/lib/malloc.c:97-112 | the heap grows by the request rounded up to 128 units, which become one block and are freed |
| `Allocator.Arena.Take` | vivado/test5/soft/perf_func/lib/malloc.c:79-89 | exact fit: the node leaves the cycle whole; else the node keeps its first units and the last ones become the block |
| `Allocator.Arena.Free` | vivado/test5/soft/perf_func/lib/malloc.c:115-135 | the pointer, size and rover writes for the block at its place, which complete one free step: exactly the units of the block become free, one free block holds them all, every other live block keeps place and size, the heap invariant holds again |
| `Allocator.FreeWritesAreStep` | vivado/test5/soft/perf_func/lib/malloc.c:115-135 | from a heap, the writes of free complete a free step, and so leave a heap |
| `Allocator.GrowWritesAreStep` | vivado/test5/soft/perf_func/lib/malloc.c:97-112 | from a heap with room, the writes of morecore add exactly the new units to the free ones; no live block changes |
| `Allocator.MallocWritesAreStep` | vivado/test5/soft/perf_func/lib/malloc.c:67-94 | from a heap with room, the writes of malloc complete a malloc step, and so leave a heap |
| `Allocator.Arena.Search` | vivado/test5/soft/perf_func/lib/malloc.c:121-123 | the walk from the rover terminates at the node after which the block belongs in address order |
| `Allocator.Arena.Join` | vivado/test5/soft/perf_func/lib/malloc.c:124-134 | of the four ways to link the block in (alone, with the node above, with the node below, bridging both), the one that fits its neighbours is taken, with these pointers, sizes and rover |
| `Heap.FreeCorrect` | vivado/test5/soft/perf_func/lib/malloc.c:115-135 | each of the four ways to link a block in is a correct free step |
| `Heap.PlacedIsReady` | vivado/test5/soft/perf_func/lib/malloc.c:121-134 | a live block overlaps no free node, never touches the static node base, and has room at its place in the cycle |
| `Heap.ExtensionIsHeap` | vivado/test5/soft/perf_func/lib/malloc.c:97-112 | new units on top of the heap are one more block of a well-formed heap, base lying outside it |
| `Heap.GrowIsStep` | vivado/test5/soft/perf_func/lib/malloc.c:97-112 | extending the heap and freeing the new block adds exactly the new units to the free ones |
| `Allocator.TakeCorrect` | vivado/test5/soft/perf_func/lib/malloc.c:79-89 | cutting the block off the node found completes a malloc step |
| `FreeList.LinkInsert` | vivado/test5/soft/perf_func/lib/malloc.c:128-133 | the pointer writes of free leave one cycle through all old nodes and the new one, at its place |
| `FreeList.LinkRemove` | vivado/test5/soft/perf_func/lib/malloc.c:80-81 | unlinking a node leaves one cycle through all the others in order |
| `FreeList.SpacedBridge` | vivado/test5/soft/perf_func/lib/malloc.c:124-131 | joining a block with both neighbours keeps the addresses ascending and no two nodes touching |
| `FreeList.TiledCarve` | vivado/test5/soft/perf_func/lib/malloc.c:82-86 | cutting the tail off a block leaves every unit of the heap in exactly one block |
| `FreeList.TiledMerge` | vivado/test5/soft/perf_func/lib/malloc.c:124-131 | joining two adjacent blocks leaves every unit of the heap in exactly one block |
| `HeapTheorems.FreeListIsOneCycle` | vivado/test5/soft/perf_func/lib/malloc.c:78-93 | from the rover, the ptr fields lead through every node of the free list exactly once and back, through base, and ascend at every link but one |
| `HeapTheorems.MallocEffect` | vivado/test5/soft/perf_func/lib/malloc.c:67-94 | malloc hands out units that nobody held, the last of a run of free ones, disjoint from every live block, changes no live block, and grows the heap exactly when nothing fits |
| `HeapTheorems.SearchResumes` | vivado/test5/soft/perf_func/lib/malloc.c:78-88 | after a malloc that left some of the free block it cut from, the next search begins with what is left |
| `HeapTheorems.SearchResumesAfterFree` | vivado/test5/soft/perf_func/lib/malloc.c:121-134 | after a free the next search begins with the block freed, or right after the free block that took it in |
| `HeapTheorems.LiveDisjoint` | vivado/test5/soft/perf_func/lib/malloc.c:67-135 | two live blocks never overlap |
| `HeapTheorems.NodeIsRunStart` | vivado/test5/soft/perf_func/lib/malloc.c:124-134 | a free node starts exactly where a free unit follows one that is not free: the list is maximally coalesced, across extensions too |
| `HeapTheorems.FreeListIsCanonical` | vivado/test5/soft/perf_func/lib/malloc.c:115-135 | two heaps with the same free units have the same free list with the same sizes, whatever calls led to them |
| `HeapTheorems.FreeUndoesMalloc` | vivado/test5/soft/perf_func/lib/malloc.c:67-135 | the writes of a free right after those of a malloc that did not grow the heap restore free list, sizes and live blocks |
| `HeapTheorems.UnitsAreConserved` | vivado/test5/soft/perf_func/lib/malloc.c:59-65 | the sizes of free and live blocks add up to all units obtained from sbrk |
| `HeapTheorems.RoomExactly` | vivado/test5/soft/perf_func/lib/malloc.c:59-65 | new units leave a heap exactly when the break stays below base, or below the end of the address space when base lies below the heap |
| `HeapTheorems.MallocNeedsRoom` | vivado/test5/soft/perf_func/lib/malloc.c:59-112 | whatever the request, the writes of malloc leave a heap exactly when a free block fits or the heap could grow below that limit |
| `HeapTheorems.GrowthSwallowsBase` | vivado/test5/soft/perf_func/lib/malloc.c:97-135 | a heap that grows right up to base merges base into a free block, and base is then no node of the list |
| `HeapTheorems.RunIsHeap` | vivado/test5/soft/perf_func/lib/malloc.c:67-135 | from the untouched arena, whatever sequence of malloc and free writes follows, with room for each malloc, every state is a well-formed heap: by induction, no state being assumed to be one |
| `HeapTheorems.RunIsSafe` | vivado/test5/soft/perf_func/lib/malloc.c:67-135 | in every state of such a run no two live blocks overlap |
| `HeapTheorems.HeldUntilFreed` | vivado/test5/soft/perf_func/lib/malloc.c:67-135 | in any such run a block keeps place and size until it is freed, and no malloc in between returns a block that overlaps it |
| `Axi.AXITransaction.Reset` | verilate/include/axi.h:26-28 | every field becomes zero |
| `Axi.AXITransaction.Init` | verilate/include/axi.h:31-46 | the fields of a new transaction in 32-bit arithmetic, busy and direction kept |
| `Axi.AXITransaction.Sync` | verilate/include/axi.h:49-61 | one handshake: the counter and the next address in 32-bit arithmetic, wrapped at the upper boundary |
| `Axi.BeatSlot` | verilate/include/axi.h:49-61 | for any burst: beat k > 0 is at the slot k places after the first, counted modulo the burst length, when the window ends below 2^32; otherwise it is at the lower boundary again or below the wrapped upper one |
| `Axi.WrapIsSlot` | verilate/include/axi.h:36-61 | the address that section A3.4.2 of the AMBA AXI and ACE specification gives for beat k, computed from the request alone with 2^size bytes a transfer, is that same slot |
| `Axi.BurstIsPermutation` | verilate/include/axi.h:31-61 | the beats of a burst visit every slot of its window, and then each exactly once at the beat that its place says, exactly when the window ends below 2^32, or the burst has one beat, or it has two and starts in the second slot |
| `Axi.AsSpecifiedExactly` | verilate/include/axi.h:31-61 | all beats are where section A3.4.2 puts them exactly when the window ends below 2^32, or the burst has one beat, or it has two and starts in the second slot: in the top window the upper boundary wraps to 0 |
| `Axi.TopWindowGoesWrong` | verilate/include/axi.h:36-61 | four beats of 4 bytes from 0xfffffff0: the second beat is at the first word again, where the specification goes on to the second; the concrete failing burst |
| `CBus.CBusDevice.Reset` | verilate/source/cbus_device.cpp:5-10 | memory reset, both transactions and the operands cleared, enable kept |
| `CBus.CBusDevice.EvalResponse` | verilate/source/cbus_device.cpp:12-28 | no response when disabled or idle; else ready, last on the final beat, and data from exactly one load on a read |
| `CBus.CBusDevice.EvalRequest` | verilate/source/cbus_device.cpp:30-61 | nothing when disabled; during a transaction the operands are latched and the next state computed; else a valid request starts one |
| `CBus.CBusDevice.Sync` | verilate/source/cbus_device.cpp:63-77 | an enabled edge stores the latched write beat and takes the next transaction state; a disabled one only chooses enable again |
| `Bursts.CycleRefines` | verilate/source/cbus_device.cpp:12-77 | each cycle passes the device's checks and moves at most one response from those that the atomic bursts still have to give to those given; the final memory they lead to never changes |
| `Bursts.RunRefines` | verilate/source/cbus_device.cpp:12-77 | over any run with any pauses: responses given, followed by those to come, are those of the atomic bursts, and so is the memory |
| `Bursts.BurstsAreAtomic` | verilate/source/cbus_device.cpp:12-77 | a completed run leaves the memory, and has given the responses, of executing the bursts one after the other, each at once: beat k at its own address with its own data and strobe, last exactly on the final beat |
| `Bursts.PausesDoNotMatter` | verilate/source/cbus_device.cpp:63-77 | deleting the disabled cycles of a run changes neither the memory nor the ready responses |
| `Bursts.CycleWorks` | verilate/source/cbus_device.cpp:12-77 | an enabled cycle does one unit of the work left, a disabled one none |
| `Bursts.EnoughCyclesComplete` | verilate/source/cbus_device.cpp:12-77 | all bursts are complete exactly when there have been enough enabled cycles: one to start each and one for each beat |
| `Bursts.BusyTxnFacts` | verilate/source/cbus_device.cpp:30-77 | between cycles a busy transaction has counted the beats done and is at the next beat's address |
| `Confreg.Device.ResetDevice` | verilate/source/confreg.cpp:3-31 | both contexts, the FIFO and the registers take their reset values; stores not yet committed stay |
| `Confreg.Device.LoadRegister` | verilate/source/confreg.cpp:33-49 | UART status and data, a register, or 0 for an unknown address; a fetch is noted |
| `Confreg.Device.StoreRegister` | verilate/source/confreg.cpp:56-93 | the store is normalised, noted in the context and queued for the next sync, what that amounts to being said by RefCpu.NormalGivesBack and Panel.TickShows; refused stores are recorded |
| `Confreg.Device.SyncDevice` | verilate/source/confreg.cpp:95-130 | a fetched character leaves the FIFO, the contexts move on, queued stores are committed in order, the timer counts; characters may arrive in between |
| `RefCpu.RefCPU.TickOnce` | verilate/source/refcpu/VTop/refcpu.cpp:103-137 | one tick in the source's order: response, request, CONFREG sync, device sync; the test ends at the end address or on 0xff; afterwards ticks do nothing |
| `RefCpu.NoStaleReads` | verilate/source/cbus_device.cpp:46-74 | in any run with any requests and pauses, a read beat of a register returns the normalised value of the latest store, plus the syncs since for TIMER, although stores take effect one sync late |
| `RefCpu.StoreIsReadBack` | verilate/source/confreg.cpp:56-93 | in any run with any requests and pauses, a read of a register after a store to it, and none since, returns: the halves exchanged (IO_SIMU), the lowest bit (NUM_MONITOR), whether there is any bit (OPEN_TRACE), the low byte (VIRTUAL_UART), all ones (SIMU_FLAG), the data and the ticks since (TIMER), and else the data |
| `RefCpu.NormalGivesBack` | verilate/source/confreg.cpp:51-90 | that is what normalising leaves, stated on halves, bits and bytes |
| `RefCpu.SwappedTwice` | verilate/source/confreg.cpp:51-53 | storing back what IO_SIMU returned gives the data first stored |
| `RefCpu.TickSettles` | verilate/source/refcpu/VTop/refcpu.cpp:107-126 | while a read is on the bus no store is waiting to be committed: the idle cycle after a write covers the delay |
| `RefCpu.VuartIsExactlyOnce` | verilate/source/confreg.cpp:68-72 | each character stored to VIRTUAL_UART through the bus is reported by has_char in exactly one tick, in order |
| `RefCpu.TickReports` | verilate/source/confreg.cpp:111-116 | what a tick stores to VIRTUAL_UART is what the next tick reports, and nothing else is reported |
| `RefCpu.InputIsExactlyOnce` | verilate/source/confreg.cpp:95-116 | wherever the reader thread's pushes fall, the characters that reads of UART_RXD returned on the bus, followed by those still queued, are exactly those pushed, in order, and the FIFO assertion never fails |
| `RefCpu.TickConsole` | verilate/source/confreg.cpp:181-191 | a read of UART_RXD returns the first character in the FIFO when uart_avail is set, and 0 when not; the tick takes out of the FIFO exactly what it returned; a read of UART_LSR returns uart_avail as 1 or 0; after the tick it is set exactly when the FIFO held a character at the sync |
| `RefCpu.ResetSettles` | verilate/source/confreg.cpp:3-31 | the reset of any machine meets the assumptions of the three run theorems, with nothing on the consoles; each register will hold the last store still queued for it at the reset, or else its reset value |
| `RefCpu.ResetValues` | verilate/source/confreg.cpp:3-31 | the six registers that reset does not clear, and their values |
| `Panel.ResetShows` | verilate/source/confreg.cpp:3-31 | tracing and the number monitor are on, the number is 0 and no character is waiting |
| `Panel.UartOutputIsExactlyOnce` | verilate/source/confreg.cpp:95-116 | with a terminal, the characters sent are those stored to UART_TXD in byte stores, each once and in order, one sync later; without one nothing is sent |
| `Panel.SettingsAreLatest` | verilate/include/confreg.h:61-78 | in any run the simulator reads the trace, monitor and number settings of the latest stores, one tick later |
| `Panel.TickShows` | verilate/source/confreg.cpp:68-116 | one tick: what it stores becomes a setting or the character to send, and what was so before is shown or sent |
| `RefCpu.ResetIsCompleteExactly` | verilate/source/confreg.cpp:3-31 | a register reads as reset exactly when no queued store gives it another value, as reset leaves the queue alone |
| `RefCpu.WaitingStoreOutlivesReset` | verilate/source/confreg.cpp:3-31 | a 1 stored to NUM right before the reset is there after it; the concrete failing state |
| `RefCpu.RefCPU.ResetBus` | verilate/source/refcpu/VTop/refcpu.cpp:95-96 | the device and CONFREG are reset, the enable bit, the queue of stores and the end of the test stay |
| `LoadOps.ApplyTo` | verilate/include/bus.h:153-170 | a load writes the low bytes of the shifted word into the destination, as many as the access is wide, and keeps the others; the fall-through cases agree |
| `BlockMemory.StoredLane` | verilate/include/bus.h:129-171 | lane k of the variable after a load is lane k of the access on the bus when k is below the width, and the variable's own otherwise |
| `BlockMemory.PlacedAgrees` | verilate/include/bus.h:579-587 | the masked comparison of placed data with the bus is the comparison of their low bytes with the bytes of the access |
| `LoadOps.StrobeIsMask` | verilate/include/bus.h:75-104 | strobe() and mask() name the same bytes, through STROBE_TO_MASK |
| `DBusPipeline.Pipeline.constructor` | verilate/include/bus.h:463-466 | empty queues and an idle bus |
| `DBusPipeline.Pipeline.SubmitTask` | verilate/include/bus.h:653-657 | the task joins pending and goes on the bus when that is idle; the bus then still carries pending's head exactly when there is one |
| `DBusPipeline.Pipeline.LoadAt` | verilate/include/bus.h:549-559 | the load helpers submit a load at their address with the placement for it |
| `DBusPipeline.Pipeline.StoreAt` | verilate/include/bus.h:561-573 | the store helpers submit a store of the placed data under the strobe of the access |
| `DBusPipeline.Pipeline.ExpectAt` | verilate/include/bus.h:575-587 | the expect helpers submit a load that is compared with the placed data |
| `DBusPipeline.Pipeline.TickOnce` | verilate/include/bus.h:481-520 | the queues, the request wires and the outcome after a tick; the queue assertions hold and the bus carries pending's head exactly when there is one |
| `DBusPipeline.Pipeline.Fence` | verilate/include/bus.h:591-603 | ticks until both queues are empty or the allowed ticks are used up |
| `PipelineTheorems.FenceRetires` | verilate/include/bus.h:591-603 | a fence retires tasks from the front of the queue, oldest first, one per answer, and ends empty exactly when each has been answered |
| `PipelineTheorems.RunsAreInOrder` | verilate/include/bus.h:481-520 | under any schedule of the slave, retired, ongoing and pending tasks are the submitted ones in order, and memory, variables and expectations are those of one-at-a-time execution so far |
| `PipelineTheorems.PipelineIsSerial` | verilate/include/bus.h:481-520 | once the queues are empty, the pipelined run has had exactly the effect of executing the submitted tasks one at a time, each reading at its address or writing its own data there under its own strobe |
| `DataPath.PipelineIsBytewise` | verilate/include/bus.h:481-658 | end to end: in any run that has emptied the queues, the memory, the variables and the expectations are byte by byte those of doing the helpers' accesses one at a time on an array of bytes |
| `DataPath.StoreIsSeen` | verilate/include/bus.h:549-587 | a load or an expectation after a store to the same bytes sees what was stored, unless they were stored to again |
| `DataPath.PerformedIsDone` | verilate/include/bus.h:549-651 | the task of each helper, executed by a block memory, does to the bytes exactly what the helper is for |
| `DataPath.RequestSpansAccess` | verilate/include/bus.h:549-651 | the request on the bus has the helper's address and a transfer size of 2^size bytes equal to its width, and is a store exactly for the store helpers |
| `PipelineTheorems.TickProgress` | verilate/include/bus.h:591-603 | a tick removes from the work of a fence exactly the handshakes that happen in it |
| `PipelineTheorems.EagerSlaveDrains` | verilate/include/bus.h:591-603 | against a slave that always accepts and answers, a fence takes one tick per unfinished task |
| `WorkerPool.Dispatcher.constructor` | verilate/source/testbench.cpp:83-93 | counters at zero, every worker open and still to ask for the first time |
| `WorkerPool.Dispatcher.HandleReady` | verilate/source/testbench.cpp:137-170 | end of file marks the run failed; else the first byte is a request and a later one a passed test, answered with the next test or with -1 and closing |
| `WorkerPool.RunIsSafe` | verilate/source/testbench.cpp:119-172 | in every interleaving each test goes to exactly one worker and finishes at most once, -1 is sent only when all are dispatched, and dispatched equals passed plus workers holding a test |
| `WorkerPool.StuckMeansDone` | verilate/source/testbench.cpp:64-76 | without crashes nothing is stuck before every worker has exited |
| `WorkerPool.CrashFreeRunPassesAll` | verilate/source/testbench.cpp:119-194 | a crash-free run that cannot go on has passed and finished every test once, handled one request per test and one per worker, and not failed |
| `WorkerPool.StepDecreases` | verilate/source/testbench.cpp:64-76 | every step but a crash uses up exactly one unit of a bounded measure |
| `WorkerPool.RunsEnd` | verilate/source/testbench.cpp:119-172 | no interleaving has more than 4 (workers + tests) + 1 steps; a complete crash-free one has exactly 3 workers + 4 tests |
| `WorkerPool.PassedTestsFinished` | verilate/source/testbench.cpp:143-153 | with crashes too, a test that did not finish is never counted as passed, and failure is reported only after a crash |
| `WorkerPool.FailureMeansCrash` | verilate/source/testbench.cpp:137-172 | a run that cannot go on has been marked failed exactly when some worker crashed |
| `WorkerPool.StuckCrashIsNoticed` | verilate/source/testbench.cpp:137-141 | nothing is stuck before the end of file of a crashed worker has been handled |
| `WorkerPool.StepKeepsConsistent` | verilate/source/testbench.cpp:119-172 | each step keeps every worker's phase, pipes and flags and the master's counters in agreement |
| `BlockMemory.Memory.constructor` | verilate/source/memory.cpp:60-64 | zeros with the data mapped in, and the same as the saved copy |
| `BlockMemory.Memory.Reset` | verilate/source/memory.cpp:78-80 | the memory is the saved copy again |
| `BlockMemory.Memory.Map` | verilate/source/memory.cpp:82-94 | each byte goes into its lane of its word |
| `BlockMemory.Memory.Load` | verilate/source/memory.cpp:105-116 | the word that holds the address, relative to the offset in 32-bit arithmetic |
| `BlockMemory.Memory.Store` | verilate/source/memory.cpp:118-128 | the masked bits of that word are replaced |
| `BlockMemory.StoreLane` | verilate/include/common.h:39-44 | a placed store under its strobe's mask writes exactly the byte lanes of its access |
| `BlockMemory.StrobeLane` | verilate/include/common.h:39-44 | a store under any of the 16 strobes writes exactly the byte lanes whose strobe bits are set |
| `BlockMemory.RelativeIsDistance` | verilate/source/memory.cpp:105-128 | byte r of the memory is at the offset plus r, in 32-bit arithmetic |
| `BlockMemory.OpRefines` | verilate/source/memory.cpp:82-128 | a map or an aligned store on the words is that overwrite of bytes in a little-endian byte array, and changes no other byte |
| `BlockMemory.LoadsReadBytes` | verilate/source/memory.cpp:105-116 | after any sequence of maps and aligned stores, an aligned load taken through LoadOp gives exactly the bytes last written there |
| `BlockMemory.VariablesTakeBytes` | verilate/include/bus.h:153-171 | and the variable that such a load leaves behind has those bytes, and above them its own |
| `Strtoul.Strtoul` | vivado/test5/soft/perf_func/lib/strtoul.c:12-80 | value and end pointer: spaces, sign, prefix, then the longest run of digits; the digits' value when it fits, ULONG_MAX when it does not, the negation modulo 2^32 after a minus sign |
| `Strtoul.Convert` | vivado/test5/soft/perf_func/lib/strtoul.c:47-68 | the loop stops at the first character that is no digit of the base, and overflow is set exactly when the value of the digits exceeds ULONG_MAX, however many follow |
| `Strtoul.FindBase` | vivado/test5/soft/perf_func/lib/strtoul.c:30-45 | base and start of the digits, the upper-case prefix of base 16 not being recognised |
| `Strtoul.LimitIsExact` | vivado/test5/soft/perf_func/lib/strtoul.c:47-61 | exceeding ULONG_MAX / base before a digit is the same as exceeding ULONG_MAX after multiplying |
| `Strtoul.StandardExactly` | vivado/test5/soft/perf_func/lib/strtoul.c:12-80 | value and end pointer are those of section 7.20.1.4 of ISO/IEC 9899:1999 exactly for the strings that have digits (or nothing) where they should start and, after 0x or 0X in base 0 or 16, a hexadecimal digit, except that after 0X in base 16 none may follow |
| `Numerals.StrtoulReads` | vivado/test5/soft/perf_func/lib/strtoul.c:12-80 | for every numeral of base 2 to 36, in digits of a table, after any spaces, sign and prefix and before anything but a digit: ULONG_MAX above 2^32 - 1 with either sign, else the number, or after a minus sign what added to it gives 2^32; and the end of the digits |
| `Strtoul.UpperCasePrefixIsMissed` | vivado/test5/soft/perf_func/lib/strtoul.c:43-44 | 0X1 in base 16 gives 0 and stops before the X, where the standard gives 1 |
| `Atob.Btoa` | vivado/test5/soft/perf_func/lib/atob.c:135-175 | the text of the value and a NUL are written and nothing after them; the 34-byte buffer suffices |
| `Atob.Generate` | vivado/test5/soft/perf_func/lib/atob.c:156-166 | at most 32 digits, least significant first |
| `Atob.Reverse` | vivado/test5/soft/perf_func/lib/atob.c:171-173 | the string is copied last character first |
| `Atob.DigitsAreFew` | vivado/test5/soft/perf_func/lib/atob.c:138-163 | a number below 2^k has at most k digits in any base |
| `Atob.TextIsShort` | vivado/test5/soft/perf_func/lib/atob.c:138-168 | at most 33 characters in any base, sign included, and no NUL |
| `Atob.AtobMethod` | vivado/test5/soft/perf_func/lib/atob.c:97-113 | base 0 is taken from the string, then the parse below |
| `Atob.AtobRaw` | vivado/test5/soft/perf_func/lib/atob.c:36-91 | hexadecimal after 0x; in base 16 two halves around a dot; else the plain conversion; failure on any other character |
| `Atob.AtobLoop` | vivado/test5/soft/perf_func/lib/atob.c:73-91 | the value modulo 2^32 when every character is a digit of the base known to atob, failure otherwise |
| `Atob.StrtoulOfBtoa` | vivado/test5/soft/perf_func/lib/atob.c:135-175 | strtoul reads back every 32-bit value that btoa prints, in every base from 2 to 36, to the end of the text |
| `Atob.StrtoulOfSignedBtoa` | vivado/test5/soft/perf_func/lib/atob.c:148-154 | and in signed decimal |
| `Atob.AtobOfBtoa` | vivado/test5/soft/perf_func/lib/atob.c:73-91 | atob reads back what btoa prints exactly when all its digits are ones that atob knows, which in bases up to 16 they are |
| `Atob.AtobRefusesG` | vivado/test5/soft/perf_func/lib/atob.c:73-91 | btoa prints 16 in base 17 as g, which atob refuses; the concrete failing text |
| `Atob.AtobOfSignedBtoa` | vivado/test5/soft/perf_func/lib/atob.c:148-154 | signed decimal comes back through atob exactly when there is no sign |
| `Numerals.AtobReads` | vivado/test5/soft/perf_func/lib/atob.c:73-91 | digits of a base up to 16, in digits of a table, are read as their number modulo 2^32 |
| `Numerals.AtobReadsPrefixed` | vivado/test5/soft/perf_func/lib/atob.c:8-52 | after 0x and 0X base 16, and with no base given after 0t and 0n base 10 and after 0o base 8 |
| `Numerals.AtobReadsDecimal` | vivado/test5/soft/perf_func/lib/atob.c:8-30 | with no base and no prefix given, base 10 |
| `Numerals.AtobReadsHalves` | vivado/test5/soft/perf_func/lib/atob.c:54-71 | two hexadecimal numbers around a dot are the high and the low half, the first having at most 19 digits |
| `Numerals.AtobRefuses` | vivado/test5/soft/perf_func/lib/atob.c:75-85 | a character that is no digit of the base, or of base 16, makes it fail |
| `Numerals.BtoaSpells` | vivado/test5/soft/perf_func/lib/atob.c:135-175 | btoa prints the digits of the value in lower case, most significant first, without a leading 0; in signed decimal a value from 2^31 on as a minus sign and what it lacks to 2^32 |
| `Strtok.Strspn` | vivado/test5/soft/perf_func/lib/strspn.c:37-51 | the length of the run of characters from the set |
| `Strtok.Strcspn` | vivado/test5/soft/perf_func/lib/strcspn.c:34-48 | the length of the run of characters outside the set |
| `Strtok.Tokenizer.Strtok` | vivado/test5/soft/perf_func/lib/strtok.c:34-51 | result, cursor and buffer of one call, from a new string or from the cursor |
| `Strtok.CallsReturnTokens` | vivado/test5/soft/perf_func/lib/strtok.c:34-51 | after any number of calls those returned are maximal delimiter-free runs of the original string, from left to right, all of them once null has come; only the first delimiter after each has become NUL |
| `Strtok.NullIsForEver` | vivado/test5/soft/perf_func/lib/strtok.c:44-46 | after null nothing changes any more |
| `Strtok.NullComes` | vivado/test5/soft/perf_func/lib/strtok.c:44-50 | null comes at the latest with the call after as many as the string has characters |
| `Strtok.CallsGoOn` | vivado/test5/soft/perf_func/lib/strtok.c:34-51 | another call is always possible |
| `Irq.FfsIsLowest` | vivado/test5/soft/perf_func/include/irq.h:57-70 | ffs, through negation and clz, gives one more than the number of the lowest bit set |
| `Irq.FfsIsFirst` | vivado/test5/soft/perf_func/include/irq.h:65-70 | ffs is 0 exactly for 0, else the position of the first one, counted from 1 |
| `Irq.BitsCleared` | vivado/test5/soft/perf_func/lib/irq.c:25 | x &= ~(1 << k) clears bit k and no other |
| `Irq.BitsSet` | vivado/test5/soft/perf_func/lib/irq.c:30 | x |= 1 << k sets bit k and no other |
| `Irq.Interrupts.Mask` | vivado/test5/soft/perf_func/lib/irq.c:179-192 | the enable bit of that line is cleared, and nothing else changes |
| `Irq.Interrupts.Unmask` | vivado/test5/soft/perf_func/lib/irq.c:194-209 | the enable bit of that line is set, and nothing else changes |
| `Irq.Interrupts.Acknowledge` | vivado/test5/soft/perf_func/lib/irq.c:211-225 | the line's bit is added to int_clr, or replaces the DMA status |
| `Irq.Interrupts.SetupIrq` | vivado/test5/soft/perf_func/lib/irq.c:262-294 | the action is hung at the end of the line's list, every list stays a chain without cycle or sharing, and the first action enables the line |
| `Irq.Interrupts.RequestIrq` | vivado/test5/soft/perf_func/lib/irq.c:296-312 | a null handler or a lack of memory changes nothing; else one fresh action is registered |
| `Irq.Interrupts.HandleEvent` | vivado/test5/soft/perf_func/lib/irq.c:48-62 | every action on the list is called once, in the order of the list; with no action the first call goes through a null pointer, and the program ends there |
| `Irq.Interrupts.HandleLevelIrq` | vivado/test5/soft/perf_func/lib/irq.c:63-73 | mask, acknowledge, call every action of the line, unmask; a line without an action stays masked, as the program ends in between |
| `Irq.Interrupts.DmaDispatch` | vivado/test5/soft/perf_func/lib/irq.c:166-177 | the line of the lowest pending DMA bit is served, with or without a handler, or none |
| `Irq.Interrupts.BoardDispatch` | vivado/test5/soft/perf_func/lib/irq.c:86-101 | the line of the lowest pending bit of the group is served, with or without a handler, bit 10 of group 1 passing on to the DMA controller |
| `Irq.DmaLineIsPending` | vivado/test5/soft/perf_func/lib/irq.c:170-176 | the DMA line picked has its own bit set in the read or write status register that it is acknowledged in |
| `Irq.BoardLineIsPending` | vivado/test5/soft/perf_func/lib/irq.c:91-100 | the board line picked has its own bit set in the status of its own group; when passed on, the DMA line picked has its bit set in its own register |
| `Irq.BoardPickIsLowest` | vivado/test5/soft/perf_func/lib/irq.c:90-100 | the board dispatcher picks nothing exactly for status 0, and else the line of the lowest bit, bit 10 of group 1 standing for the DMA controller |
| `Irq.DmaPickIsLowest` | vivado/test5/soft/perf_func/lib/irq.c:170-176 | the DMA dispatcher picks the lowest read channel pending, else the lowest write channel, else nothing |
| `Irq.AckMoves` | vivado/test5/soft/perf_func/lib/irq.c:211-225 | acknowledging a board line adds its bit to those written; acknowledging a DMA line leaves its bit alone in its register; other registers keep theirs |
| `Irq.OneLineMoves` | vivado/test5/soft/perf_func/lib/irq.c:179-209 | masking or unmasking one line leaves the enable bit of every other line as it was |
| `Irq.ServiceTouchesOneLine` | vivado/test5/soft/perf_func/lib/irq.c:63-73 | while a line is served exactly its enable bit is clear; afterwards it is set and every other is as before |
| `Irq.ServiceAcks` | vivado/test5/soft/perf_func/lib/irq.c:68 | the bit acknowledged is that of the line served, and it is written before the handlers are called |
| `Irq.ListsAreInOrder` | vivado/test5/soft/perf_func/lib/irq.c:262-312 | in any run a line's list holds exactly the handlers registered for it, in order |
| `Irq.InterruptsCallEachOnce` | vivado/test5/soft/perf_func/lib/irq.c:48-101 | in any run each interrupt calls every handler registered till then for the line it picks exactly once, in order, and nothing else is called |
| `Irq.EnabledMeansHandled` | vivado/test5/soft/perf_func/lib/irq.c:262-294 | in any run a line with a handler is enabled, a line enabled at the start stays so until the program ends, and no other is enabled |
| `Irq.HaltsExactly` | vivado/test5/soft/perf_func/lib/irq.c:48-101 | the program ends in a call through null exactly when an interrupt picks a line for which nothing was registered |
| `Irq.EnabledLinesAreSafe` | vivado/test5/soft/perf_func/lib/irq.c:48-101 | with every line masked at the start, interrupts of enabled lines only never end it |
| `LineBuffer.CacheRefModel.Fetch` | verilate/source/refcpu/VCacheTop/cache_ref.cpp:15-20 | the buffer becomes the 16 words of the aligned 64-byte line |
| `LineBuffer.CacheRefModel.LoadWord` | verilate/source/refcpu/VCacheTop/cache_ref.cpp:22-27 | the line is fetched and its word returned |
| `LineBuffer.CacheRefModel.StoreWord` | verilate/source/refcpu/VCacheTop/cache_ref.cpp:29-38 | the line is fetched, then word and memory take the masked bits |
| `LineBuffer.RunIsCoherent` | verilate/source/refcpu/VCacheTop/cache_ref.cpp:15-38 | after any sequence of accesses every load has returned what plain memory holds, the memory equals that of a model without buffer, and the buffer is the line touched last |
| `Bitcount.BitCount` | vivado/test5/soft/perf_func/bench/bitcount/bitcnt_1.c:9-20 | the loop runs exactly once for each bit set, and that is the result |
| `Bitcount.ClearLowest` | vivado/test5/soft/perf_func/bench/bitcount/bitcnt_1.c:18 | x & (x - 1) has one bit less than x |
| `Bitcount.ParallelSumIsPop` | vivado/test5/soft/perf_func/bench/bitcount/bitcnt_2.c:9-17 | the five parallel sums give the number of ones |
| `Bitcount.BitsIsPop` | vivado/test5/soft/perf_func/bench/bitcount/bitcnt_3.c:15-33 | each of the 256 table entries is the number of ones of its index |
| `Bitcount.NtblBitcountIsPop` | vivado/test5/soft/perf_func/bench/bitcount/bitcnt_3.c:42-53 | the eight nibble look-ups add up to the number of ones |
| `Bitcount.BwBtblBitcountIsPop` | vivado/test5/soft/perf_func/bench/bitcount/bitcnt_3.c:61-73 | and so do the four byte look-ups |
| `Bitcount.ArBtblBitcount` | vivado/test5/soft/perf_func/bench/bitcount/bitcnt_3.c:81-91 | and the four through the moving pointer |
| `Bitcount.NtblBitcntReturnsExactly` | vivado/test5/soft/perf_func/bench/bitcount/bitcnt_4.c:38-46 | the recursion returns, with the number of ones and after at most eight calls, exactly when the argument is not negative |
| `Bitcount.SignBitNeverReturns` | vivado/test5/soft/perf_func/bench/bitcount/bitcnt_4.c:38-46 | for 0x80000000 no depth of calls returns; the concrete failing argument |
| `Bitcount.BitShifter` | vivado/test5/soft/perf_func/bench/bitcount/bitcnts.c:77-84 | shift and count gives the number of ones, for negative arguments too |

## Left out

- Allocator.Arena.Malloc: assumes that the block fits or that the heap can grow and stay below `base` and the end of the address space, as HeapTheorems.MallocNeedsRoom says it must to leave a heap; sbrk never refuses, so the branches of malloc and morecore that return NULL cannot be taken before that. What the corrupted list does after a growth over `base` is not modelled beyond HeapTheorems.GrowthSwallowsBase.
- Allocator.Arena.Morecore: assumes the same room.
- Allocator.Arena.Free: is for live blocks only, as the source demands; freeing anything else is not modelled.
- The contents of allocated blocks, and a `base` inside or next to the heap.
- Allocator.Arena.FindAndTake, Find, NextNode, Grow, NewBlock, Take, Search, Join, JoinUpper and JoinLower are pieces of malloc, morecore and free, which the source writes inline.
- MemoryRouter's dispatch by address prefix, and the sharing of one memory object between several owners: the CBus device and RefCPU hold the memory as a value that load and store map to a new one; Confreg.Device is the in-place form of the same functions.
- CBus.CBusDevice.EvalRequest: assumes a compliant master, as the source's assertions do; the random choice of pauses is an arbitrary sequence of booleans.
- The Verilated processor and the traces: RefCPU takes any requests, and the end address test is a parameter.
- RefCpu.RefCPU.ResetBus: the ten ticks with which RefCPU::reset goes on are ticks like any others.
- RefCpu.RefCPU.TickOnce: `checkout_confreg` and the printing in a tick are not modelled; the reader thread pushes characters at four places in a tick, each push being atomic.
- Opening and closing the pty, and output to it beyond the sequence of characters put.
- DBusPipeline.Pipeline.TickOnce: assumes that the slave answers only what it has accepted; the wires of the bus are one request or none.
- DataPath.PipelineIsBytewise: the slave is a block memory without offset, and the bytes accessed lie in it; raw tasks with other strobes are covered by PipelineTheorems.PipelineIsSerial and BlockMemory.StrobeLane. Variables are 32 bits wide.
- DBusGen::await, whose meaning rests on generated code that is not part of this model.
- Processes, pipes, select, signals and affinity in testbench.cpp: a step is one write, read, exit or crash; pipes never fail, and the killing of workers after a failure is not modelled.
- BlockMemory's dump, which does not subtract the offset, and the constructors without data or without size.
- LineBuffer.CacheRefModel.LoadWord: the comparisons with the RTL's buffer and memory (check_internal, check_memory) need the RTL.
- Strtoul.Strtoul: bases other than 0 and 2 to 36, for which the source divides by them unchecked; a null end pointer.
- Atob.AtobMethod: the string is the characters before its NUL; llatob and llbtoa repeat the code for 64 bits.
- Atob.Btoa: assumes that the caller's buffer holds the text, and base -10 or 2 to 36.
- Strtok.Tokenizer.Strtok: one buffer per tokenizer; starting over in another buffer is another tokenizer. A call with no string before the first one is not modelled.
- Irq.Interrupts.HandleEvent: a call through null ends the program here; what the processor does at address 0 is not modelled. Handlers are opaque calls that change nothing.
- Irq.Interrupts.RequestIrq: the source returns no value on success. The chip tables, trigger types (set_type does nothing), plat_irq_dispatch's choice of the group and init_IRQ are not modelled; lines without a chip are excluded. The enable bits at the start are arbitrary in the run theorems.
- Irq.Interrupts.Acknowledge: registers are plain memory; what the hardware does on a write to them is the event DmaRaises.
- btbl_bitcnt, which the benchmark marks as not working, and the benchmark loop.
- printf and scanf formatting, floating point, string and sort routines, inline assembly and cache operations.
