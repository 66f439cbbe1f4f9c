# DemonOS: models and proofs of its stateful cores

DemonOS is a small kernel with ring-3 services. This project models eight of its cores and proves
what each is for, over all inputs, all runs and all reachable states. `dafny verify dfyconfig.toml`
checks everything.

| Part | Files | What is modelled |
|---|---|---|
| Kernel | `KernelState`, `KernelInvariants`, `KernelSteps`, `KernelLaws`, `KernelTaskLaws`, `KernelInputLaws`, `KernelTimeouts`, `KernelParents`, `KernelPipes`, `KernelWakes`, `KernelLost`, `KernelFairness`, `KernelWitness`, `KernelCode` | Scheduler, blocking IPC and input as one step machine (eight processes, 16 channels of 32 messages). `KernelCode.dfy` is the code updating its tables in place; every method is proved equal to a function of the machine. The three `Laws` files say in fields and queues what each entry does and when it refuses; the others prove what the machine keeps over whole runs. |
| Heap | `HeapBlocks`, `PortKit` | The PortKit allocator: linked headers in the one arena they describe against a list of blocks that tile it. |
| Surfaces | `Surfaces`, `Handles`, `Capabilities` | A first-fit pixel arena with reference counts, and generation-checked handles (and read-only mappings) that own the references. |
| Display | `Grid`, `Bresenham`, `Blending`, `Framebuffer`, `CopyArea` | Pixel mixing two channels at a time against channel arithmetic; damage rectangles with a cursor overlay against full redraw; the error-term line against the ideal line; the overlapping two-dimensional copy in chunks. |
| Network | `Bytes`, `Options`, `Checksums`, `Packets`, `Wire`, `Network`, `TcpStream` | Two ways of folding a ones' complement sum (RFC 1071 section 1, RFC 9293 section 3.1), frame builders against parsers, both against headers written field by field after RFC 791 section 3.1 and RFC 9293 section 3.1, and the in-order TCP buffer. |
| ELF | `Elf64`, `ElfImage` | Layout check, flat loader, and the loader into scattered frames, and what they make of any image written field by field. |
| Files | `Paths`, `Ramfs` | A flat name table listed and walked as a tree, over a bump-allocated arena. |
| Editor | `EditorText`, `EditorLoad`, `EditorFlat`, `Editor` | NUL-terminated rows edited in place against one flat text with a cursor. |
| Sort | `Quicksort` | The C library's `qsort` on elements of any size. |

Where the source changes state step by step the model is a class with the same fields and loops,
and its methods are tied to functions about which the lemmas speak. Integers are unbounded; where
the source's width matters (ring indices, ticks, checksums, sequence numbers, ELF addresses, handle
generations, size overflow) it is written out.

## What the proofs show about the code

Some promises hold only under a condition; each is stated exactly.

- An open channel is a lossless queue at every moment of a run if and only if no message is handed
  past queued ones (`KernelPipes.PipeRun`). That takes a blocking receive shorter than the oldest
  message: it fails, but the wait that follows is registered although the queue is not empty
  (`KernelPipes.PipeStep`, `KernelPipes.OversizedSleeps`), and the next message that fits overtakes
  (`KernelPipes.Overtakes`; src/ipc.c:122-151). `KernelWitness.OvertakenRun` is such a run from boot.
- A message longer than the sleeping receiver's buffer is dropped and the receiver is forgotten while
  still blocked (src/ipc.c:93-94). `KernelWakes.SleeperFate` lists this as the only way to strand a
  sleeper, `KernelLost.StrandedSleepsOn` shows that nothing but its end ever changes it again,
  `KernelWitness.StrandedRun` is a run from boot, and `KernelWakes.SelectNeverStranded` shows a
  two-way select is immune.
- `wait(0)` is refused in every reachable state, although the comment at src/scheduler.c:8 calls it
  waiting for any child: the idle task is nobody's child (`KernelSteps.WaitZeroRefused`,
  `KernelParents.FromBoot`; src/scheduler.c:182-190).
- A timed select sleeps for exactly its delay (`KernelTimeouts.SleepsForDelay`) as long as clock plus
  delay stays below 2^64; when the sum wraps, the next tick wakes it (`KernelTimeouts.FirstTickWakes`,
  `KernelWitness.WrappedRun`; src/scheduler.c:198-209).
- Terminating a process closes its channels and takes away its waits before the termination is
  checked, so a refused call, of oneself for instance, has that effect too
  (`KernelTaskLaws.TerminateLaw`; src/arch/x86_64/userspace.c:1018-1023). The kernel's own termination
  leaves the channels of the victim open until it is collected (`KernelTaskLaws.KillLaw`).
- A message handed to a receiver that was ended without a cleanup is not accepted although the receiver is
  still registered (`KernelLaws.SendAccepted`, `KernelLaws.SendRefuses`).
- A closed handle is dead until its slot has been emptied exactly 65535 times, or a multiple of it, and
  is open again; then it names whatever is there (`Handles.StaleGeneration`,
  `Handles.StaleHandleReturns`).
- TCP data frames are not padded to the Ethernet minimum, so one with fewer than six bytes is refused
  by the receiver it was built for (`Packets.DataRoundTrip`); FIN frames are padded and always pass.
- A data segment with FIN moves the next sequence number one past its bytes, so the number equals
  first plus length if and only if no such segment was taken (`TcpStream.ContiguousUnlessFin`).
- A read with a small buffer discards the rest of the pending bytes but reports the sequence number
  after all of them (`TcpStream.ReadLosesNothing`).
- `du` misses the files below a directory whose name is also a file in an earlier slot
  (`Paths.ReachedUnlessMasked`, `Paths.WalkMissesExample`).
- Delete at the end of a line whose successor does not fit leaves the text but moves the cursor to the
  next line (`EditorText.RefusedKeeps`); lines are joined only up to 78 characters although a row
  holds 79 (`EditorText.EnterUndoneUnlessFull`).

## Model

| member | source | states |
|---|---|---|
| KernelSteps.NextInv | src/ipc.c:84-202 | One kernel entry of any kind (send, receive, two-way select, tick, input event, exit, terminate, wait, reap, create, start, yield) keeps the invariant: every channel waiter, input waiter and parked sender is a blocked or exited task, each task waits on at most one channel, a select's two halves exist together, a parked sender means a full ring, exactly the current task is RUNNING |
| KernelSteps.RunInv | src/scheduler.c:105-240 | The same for every state reachable by any run of entries |
| KernelSteps.WaitZeroRefused | src/scheduler.c:182-190 | wait(0) changes nothing in any state that satisfies the invariant: the idle task is nobody's child |
| KernelLaws.SendAccepted | src/ipc.c:84-107 | A send of the running user is accepted if and only if the channel is open, the message has 1 to 64 bytes, and a receiver that sleeps there (and is not already dead) has room for it or, with no receiver registered, the ring or the one parking place is free |
| KernelLaws.SendHandsOver | src/ipc.c:88-96 | Accepted by a sleeping receiver: delivered at once; a plain receiver wakes with length and sender, a select with 1 and the length; it is in no registry any more, and no other channel or task changes |
| KernelLaws.SendQueues | src/ipc.c:104-107 | Accepted with room in the ring: appended at its end, nothing else changes and the caller runs on |
| KernelLaws.SendParks | src/ipc.c:97-102 | Accepted with a full ring: parked with the sender and its bytes, and the caller sleeps |
| KernelLaws.SendRefuses | src/ipc.c:84-107 | Not accepted: nothing changes, except that a receiver the message is handed to in vain is forgotten |
| KernelLaws.ReceiveLaw | src/arch/x86_64/userspace.c:1048-1062 | A receive gets the oldest message if and only if there is one and it fits (the parked message moves up and its sender wakes); else the caller is registered with its buffer and sleeps if and only if it does not poll and the waiting place is free; else nothing changes |
| KernelLaws.SelectLaw | src/arch/x86_64/userspace.c:1190-1227 | A select takes the oldest message, else the oldest event, else sleeps on both sides with its timeout, else, when only one side is free, registers on neither |
| KernelTimeouts.SelectSleeps | src/scheduler.c:198-209 | A select with a delay that puts its caller to sleep sets the wake tick to the clock plus the delay, modulo 2^64, with result 3 |
| KernelTimeouts.SleepsForDelay | src/scheduler.c:138-158 | Over any run in which nothing but the clock wakes or ends it, the sleeper is untouched for fewer than delay ticks, and the delay-th wakes it with result 3 and detail 0, when clock plus delay does not wrap |
| KernelTimeouts.FirstTickWakes | src/scheduler.c:138-158 | When clock plus delay wraps (and the clock is not at its last value) the very next tick wakes it instead |
| KernelTimeouts.Clock | src/scheduler.c:138-158 | The clock counts ticks modulo 2^64, and no other entry moves it |
| KernelTaskLaws.DispatchLaw | src/scheduler.c:58-104 | Every entry of a running user returns to it or hands the processor to the READY task at the least cyclic distance, with a fresh quantum, or to the idle task when none is READY |
| KernelTaskLaws.YieldLaw | src/scheduler.c:159-162 | Yielding always hands the processor on, at the latest back to the caller, which stays READY |
| KernelTaskLaws.TickLaw | src/scheduler.c:138-158 | A tick uses up a quarter of the running user's quantum; the fourth hands the processor on |
| KernelTaskLaws.CreateLaw | src/scheduler.c:105-121 | A created task takes the lowest unused slot, READY, with its parent and a clean register image; without one nothing changes |
| KernelTaskLaws.StartLaw | src/scheduler.c:122-129 | Starting dispatches the lowest READY user exactly once |
| KernelTaskLaws.CleanupLaw | src/ipc.c:175-202 | Cleaning up a process closes its channels and takes its waits and parked messages out of the others; other tasks are touched only where they sleep on a channel it owned |
| KernelTaskLaws.ExitLaw | src/scheduler.c:176-181 | An exit ends the caller with its code (or wakes the parent in wait for it and frees the slot), closes its channels and hands the processor on |
| KernelTaskLaws.TerminateLaw | src/arch/x86_64/userspace.c:1018-1023 | A terminate call ends its target exactly when that is another living process, and closes its channels and takes away its waits even when it is refused |
| KernelTaskLaws.KillLaw | src/scheduler.c:221-225 | The kernel's own termination ends exactly such a process, and leaves its channels open unless a parent collects it |
| KernelTaskLaws.WaitLaw | src/scheduler.c:182-190 | wait collects an ended child, sleeps for a living one, and refuses any other number |
| KernelTaskLaws.ReapLaw | src/scheduler.c:226-232 | Reaping frees the slot of an ended child exactly for its parent |
| KernelInputLaws.PushLaw | src/input.c:32-63 | A mouse move takes the place of a mouse move still last in the queue; any other event goes behind the others, or is dropped when 127 wait |
| KernelInputLaws.PollLaw | src/input.c:65-70 | Polling takes the oldest event and leaves the rest in order |
| KernelInputLaws.EventLaw | src/input.c:32-63 | An event of the six kinds goes to the task that sleeps for input, with result 2 and out of both halves of its select, or joins the queue; others change nothing |
| KernelInputLaws.OpenLaw | src/ipc.c:62-76 | A channel is opened in the lowest closed record, empty and owned by the caller, exactly under a new name of 1 to 23 characters while a record is free |
| KernelInputLaws.NoChannelLaw | src/arch/x86_64/userspace.c:1033-1062 | With a handle that stands for no channel send and receive change nothing and a select only takes an event |
| KernelParents.NextPromise | src/scheduler.c:163-190 | One entry and parents asleep in wait: each waits for a living child of its own; the child's end wakes it with the child's number and exit code and frees the slot; its own end ends it; every other entry leaves it exactly as it was |
| KernelParents.RunParents | src/scheduler.c:163-232 | In every state reachable by any run a parent asleep in wait has a living child to wait for: no exit is ever missed |
| KernelParents.FromBoot | src/scheduler.c:91-104 | From any boot state both hold after every run: no exit is missed, and wait(0) is refused |
| KernelSteps.CleanupInv | src/ipc.c:175-202 | After a process is cleaned up it is in no registry and owns no channel; other tasks are at most woken, never otherwise changed |
| KernelInvariants.CancelBothInv | src/ipc.c:159-168 | Cancelling both halves of a wait keeps the registries consistent and leaves the task in none of them |
| KernelInvariants.OneHalfIsBoth | src/input.c:32-63 | Removing a select's channel half and its input half is the same as cancelling both, so a wake by either side removes the other |
| KernelInvariants.NextReadySpec | src/scheduler.c:78-84 | The scan returns the READY task at the smallest cyclic distance after the given one, and 0 exactly when there is none |
| KernelInvariants.RescheduleInv | src/scheduler.c:130-137 | A switch from any half-finished state ends with one RUNNING task, the current one, and leaves sleepers untouched |
| KernelPipes.PipeStep | src/ipc.c:84-151 | A step that cleans nothing up conserves a channel (outstanding ++ accepted == delivered ++ outstanding) if and only if it does not hand a message past different queued ones; a cleanup breaks it only by taking the parked message back; a sleeper comes to lie in front of a queued message exactly by a blocking receive shorter than the oldest message |
| KernelPipes.PipeRun | src/ipc.c:84-202 | While a channel stays open, everything accepted is everything delivered followed by the ring and the parked message, in order and at every moment of the run, if and only if no message is ever handed past queued ones |
| KernelPipes.ReadyRun | src/ipc.c:84-202 | It is so on every run in which no blocking receive is shorter than the oldest message |
| KernelPipes.OversizedSleeps | src/ipc.c:122-151 | Such a receive leaves its caller blocked and registered in front of the unchanged queue |
| KernelPipes.PipeBound | src/ipc.c:118-121 | At most 33 messages are outstanding, and a parked sender implies a full ring |
| KernelPipes.Overtakes | src/ipc.c:84-96 | While it sleeps there, the next message that fits is delivered before the queued ones |
| KernelPipes.EnqueueRing | src/ipc.c:84-107 | Writing at the ring's write index appends to the queue and disturbs no queued message, across wrap-around |
| KernelWakes.SleeperFate | src/ipc.c:84-202 | The complete table of what one entry does to a sleeping registered task: untouched, woken with the result and detail that belong to the event, killed, or stranded by exactly one kind of send |
| KernelWakes.WokenOnce | src/scheduler.c:210-220 | A task that is woken was due a wake and is in no registry afterwards, so a two-way select completes once |
| KernelWakes.SelectNeverStranded | src/ipc.c:152-158 | A select can never lose its sleeper: its message buffer holds any message |
| KernelLost.LostForGood | src/ipc.c:84-202 | A blocked task in no registry is left exactly as it is by every entry that does not end it |
| KernelLost.StrandedSleepsOn | src/ipc.c:88-96 | A hand-off longer than the sleeping receiver's buffer makes it such a task, and it sleeps through every run that does not end it |
| KernelWitness.OvertakenRun | src/ipc.c:84-151 | A run from any boot state in which the message accepted second is the only one delivered |
| KernelWitness.StrandedRun | src/ipc.c:88-96 | A run from any boot state after which a receiver sleeps for ever |
| KernelWitness.WrappedRun | src/scheduler.c:198-209 | A run from any boot state in which a select with delay 2^64 - 1 is woken by the next tick |
| KernelWakes.TickFate | src/scheduler.c:138-158 | A tick wakes exactly the timed waits that are due, with their timeout result, and leaves every other sleeper alone |
| KernelFairness.IdleOnlyWhenNoneReady | src/scheduler.c:85-89 | The processor goes idle only when no task is READY |
| KernelFairness.BypassStep | src/scheduler.c:78-137 | While a task stays READY each dispatch lowers its cyclic distance and each tick uses up patience |
| KernelFairness.BoundedBypass | src/scheduler.c:130-158 | A task that stays READY sees fewer than N-2 further dispatches and fewer than 4(N-2) ticks |
| KernelFairness.RegistersRun | src/scheduler.c:53-57 | After any run the processor and the saved images hold for each task the registers it would have if it never shared the processor |
| KernelFairness.RegistersStep | src/scheduler.c:71-77 | The same for one entry, including slot reuse, where a new task starts from the clean template |
| KernelFairness.InitialOk | src/scheduler.c:91-104 | The boot state satisfies the invariants, and every channel is empty |
| KernelSteps.ReceiveInv | src/ipc.c:122-146 | Taking the head, refilling from the parked sender and waking it keeps every ring, registry row and task well formed |
| KernelCode.Kernel.RescheduleNow | src/scheduler.c:130-137 | The code in place is the machine's switch |
| KernelCode.Kernel.FindNextReady | src/scheduler.c:78-84 | The scanning loop computes the specified next task |
| KernelCode.Kernel.TimerTick | src/scheduler.c:138-158 | The tick in place: timeouts of all tasks, then the running task's slice |
| KernelCode.Kernel.YieldTask | src/scheduler.c:159-162 | The yield in place |
| KernelCode.Kernel.CreateUserTask | src/scheduler.c:105-121 | Takes the first unused slot with a clean register image, or 0 |
| KernelCode.Kernel.StartUserTasks | src/scheduler.c:122-129 | Starting hands the processor to the first READY user, if there is one |
| KernelCode.Kernel.ExitTask | src/scheduler.c:176-181 | The exit in place, waking a waiting parent |
| KernelCode.Kernel.WaitForChild | src/scheduler.c:182-190 | The wait in place: reaps an exited child and returns its number and exit code, or blocks the parent, or refuses |
| KernelCode.Kernel.TerminateTask | src/scheduler.c:221-225 | The termination in place, with its verdict |
| KernelCode.Kernel.ReapChild | src/scheduler.c:226-232 | Reaping returns the exit code and clears the slot |
| KernelCode.Kernel.WakeTask | src/scheduler.c:210-220 | Waking makes a BLOCKED task READY with its result, and says whether it did |
| KernelCode.Kernel.BlockCurrentTaskTimeout | src/scheduler.c:198-209 | A timed block equals the machine's, whose wake tick `KernelTimeouts.SelectSleeps` gives as clock plus delay |
| KernelCode.Kernel.SendMessage | src/ipc.c:84-107 | Equals the machine's send, of which `KernelLaws.SendAccepted` and the four laws beside it say exactly when a message is handed over, queued, parked or refused |
| KernelCode.Kernel.ReceiveMessage | src/ipc.c:122-146 | Receive with refill from the parked sender |
| KernelCode.Kernel.ProcessCleanup | src/ipc.c:175-202 | The cleanup loop over all channels |
| KernelCode.Kernel.RegisterWait | src/ipc.c:147-158 | Registering a channel wait, plain or multiplexed, and when it is refused |
| KernelCode.Kernel.CancelChannelWaitOf | src/ipc.c:159-168 | The search that stops at the first hit removes the task's only channel wait |
| KernelCode.Kernel.OpenNewChannel | src/ipc.c:62-76 | Opening a channel by a free name in the first free slot |
| KernelCode.Kernel.PublishEvent | src/input.c:32-63 | Publishing wakes the input waiter or appends, merging consecutive mouse moves |
| KernelCode.Kernel.PollEvent | src/input.c:65-70 | Polling takes the oldest event |
| KernelCode.Kernel.WaitForInput | src/input.c:72-76 | Registering the one input waiter, and when it is refused |
| KernelCode.Kernel.CancelInputWaitOf | src/input.c:78-82 | Cancelling removes only the caller's own wait |
| KernelCode.Kernel.CallSend | src/arch/x86_64/userspace.c:1033-1047 | The send call: register and block are one step; the code is nonzero exactly when the message was accepted, and the new state is the one of the `KernelLaws` |
| KernelCode.Kernel.CallReceive | src/arch/x86_64/userspace.c:1048-1062 | The receive call, polling or blocking |
| KernelCode.Kernel.CallSelect | src/arch/x86_64/userspace.c:1190-1227 | The two-way select with its undo when only one half can be registered; delays as in `KernelTimeouts` |
| KernelCode.Kernel.CallExit | src/arch/x86_64/userspace.c:824-830 | Cleanup of the process, then exit |
| KernelCode.Kernel.CallTerminate | src/arch/x86_64/userspace.c:1018-1023 | Cleanup of the target, then termination, with its verdict |
| HeapBlocks.TakeTiles | user/portkit.c:82-105 | After an allocation the blocks tile the arena again, no two neighbours are free, and the used bytes grew by the block |
| HeapBlocks.TakeTrims | user/portkit.c:88-99 | The block handed out has fewer than 48 bytes to spare: a larger block is cut to exactly the rounded size and its rest, less a 32-byte header, follows as a free block |
| HeapBlocks.TakeKeeps | user/portkit.c:82-105 | An allocation moves and changes no other block |
| HeapBlocks.NoRunFits | user/portkit.c:82-105 | When first fit finds nothing, no run of free blocks, even merged, could hold the request |
| HeapBlocks.GiveTiles | user/portkit.c:107-123 | After a release the blocks tile the arena, no two neighbours are free, and the used bytes shrank by the block |
| HeapBlocks.GiveKeeps | user/portkit.c:107-123 | A release moves and changes no other used block |
| HeapBlocks.GiveUndoesTake | user/portkit.c:82-123 | Freeing right after allocating restores the exact block list |
| HeapBlocks.FirstFit | user/portkit.c:82-105 | The chosen block is free, large enough, and the first such |
| HeapBlocks.AlignedSize | user/portkit.c:32-35 | A request rounds up to the next multiple of 16, or to 0 when it is 0 or cannot be rounded |
| PortKit.PortHeap.Init | user/portkit.c:37-53 | One free block over the whole arena, or the old heap when the arena is refused |
| PortKit.PortHeap.Malloc | user/portkit.c:82-105 | Returns none and changes nothing exactly when the size is invalid or nothing fits; otherwise takes the first fitting block, and the block handed out has the rounded size, or less than 48 bytes more when the rest would be too small for a block; the bytes in front of every block are its header, linked to its neighbours, and every other payload stays |
| PortKit.PortHeap.Free | user/portkit.c:107-123 | Releases and coalesces with both neighbours without altering a live payload; freeing nothing or a free block is a no-op |
| PortKit.PortHeap.Calloc | user/portkit.c:125-131 | Refuses products that overflow, otherwise does what malloc does and zeroes the bytes asked for; every header and every other payload stays |
| PortKit.PortHeap.Realloc | user/portkit.c:133-143 | No pointer is malloc, size 0 is free; a block that is large enough is kept; growing moves: the old contents are a prefix of the new block, every other payload is kept, the old block is released; refusal changes nothing |
| PortKit.TakeLinkedSplit | user/portkit.c:82-105 | Splitting a header keeps next and previous mirror images of each other |
| PortKit.AbsorbLinked | user/portkit.c:107-123 | Absorbing the right neighbour keeps them so |
| PortKit.StoreKeeps | user/portkit.c:82-123 | Writing one header leaves the bytes of every other header in place |
| PortKit.PayloadWrite | user/portkit.c:125-143 | Writing inside one payload leaves the bytes of every header in place |
| Surfaces.GapRoundsDown | src/surface.c:42-80 | If a gap exists at any offset one exists at a multiple of 1024, so the aligned search misses none |
| Surfaces.GapMeans | src/surface.c:42-80 | A gap is a stretch of pixels none of which belongs to a surface |
| Surfaces.SurfaceTable.FindGap | src/surface.c:42-80 | The lowest aligned gap; a failed search means no gap at any offset |
| Surfaces.SurfaceTable.Create | src/surface.c:42-80 | Succeeds if and only if the arguments are valid, a slot is free and some gap fits; the extent is the lowest aligned gap, disjoint from all others, and reads all zero |
| Surfaces.SurfaceTable.Retain | src/surface.c:82-87 | Counts up, or refuses at the limit |
| Surfaces.SurfaceTable.Clear | src/surface.c:89-95 | Scrubs the extent and frees the slot, touching no other pixel |
| Surfaces.SurfaceTable.Release | src/surface.c:97-103 | Counts down; the last release scrubs the extent and nothing else |
| Surfaces.SurfaceTable.Discard | src/surface.c:105-110 | Scrubs a surface nobody holds, and no other pixel |
| Surfaces.SurfaceTable.Write | src/surface.c:118-129 | Replaces exactly the addressed stretch of one picture and changes no other surface |
| Handles.HandleRoundTrip | src/capability.cpp:35-45 | Decoding a made handle gives back process, slot and generation |
| Handles.HandleUnique | src/capability.cpp:39-45 | Every handle that decodes is the one handle of its triple |
| Handles.ResolvesMeans | src/capability.cpp:35-45 | A handle resolves if and only if it is generation * 65536 + process * 256 + position of an open slot of the caller whose rights leave out none of those asked for |
| Handles.StaleGeneration | include/kernel/slot_table.h:66-111 | Whatever is opened and closed in between, a handle that was live resolves afterwards if and only if its slot is open with the rights asked for and was emptied a multiple of 65535 times |
| Handles.StaleReopened | include/kernel/slot_table.h:43-56 | Closing and opening its slot again n times leaves the handle resolving, to what was opened last, if and only if n is a multiple of 65535 |
| Handles.StaleHandleReturns | src/capability.cpp:171-208 | A concrete history: a handle closed once is dead, and after 65535 closings names another file |
| Capabilities.RightsByRight | src/capability.cpp:46-64 | Which services may be written, queried, read and opened through a handle of their own |
| Capabilities.OpenKeepsCount | src/capability.cpp:66-80 | Filling a free slot with a surface and counting up keeps references == holders for every surface |
| Capabilities.CloseKeepsCount | src/capability.cpp:198-208 | Emptying a slot and counting down keeps it |
| Capabilities.CapabilityTables.AllocateSlot | src/capability.cpp:66-80 | First closed slot with its next handle; opened minus closed equals the live handles |
| Capabilities.CapabilityTables.OpenSurface | src/capability.cpp:133-148 | Succeeds if and only if the process is assigned surfaces, asks for surface rights only, the surface exists and a slot is free; retains before allocating and undoes it; the counting invariant holds on every path |
| Capabilities.CapabilityTables.OpenService | src/capability.cpp:102-110 | Opens exactly an assigned service that has rights of its own, while a slot is free, with just those rights |
| Capabilities.CapabilityTables.OpenFile | src/capability.cpp:112-120 | Opens any named file for a user process, while a slot is free, assigned or not |
| Capabilities.CapabilityTables.OpenIpc | src/capability.cpp:122-131 | Opens a channel exactly for an assigned process asking for some of the channel rights and no others |
| Capabilities.CapabilityTables.Grant | src/capability.cpp:150-169 | Succeeds exactly for a resolvable surface handle, rights without writing, an assigned target and a free slot; the new handle names the same object with rights inside the source's; a refused grant changes neither tables nor surfaces |
| Capabilities.CapabilityTables.Resolve | src/capability.cpp:171-190 | Resolves exactly the open slot of the caller whose generation and rights match |
| Capabilities.CapabilityTables.Close | src/capability.cpp:198-208 | Closes exactly a resolvable handle, which then no longer resolves; refusal changes nothing |
| Capabilities.CapabilityTables.CloseAll | src/capability.cpp:210-221 | Leaves the process without open slots or services and every count right |
| Capabilities.CapabilityTables.CreateSurface | src/arch/x86_64/userspace.c:1127-1142 | Succeeds exactly when the size is valid, a surface slot, a gap and a handle slot are free and the process is assigned surfaces; the new surface is held once; otherwise no surface is left behind |
| Capabilities.CapabilityTables.MapSurface | src/arch/x86_64/userspace.c:597-623 | Succeeds when the process has the mapping already, changing nothing, or else exactly when a mapping slot is free and the surface exists and fits; a new mapping retains it once |
| Capabilities.CapabilityTables.UnmapAll | src/arch/x86_64/userspace.c:649-657 | Process teardown gives back every mapping's reference and keeps those of others |
| Framebuffer.ClipSpec | src/framebuffer.c:44-57 | Clipping keeps exactly the points of the rectangle that are on the screen |
| Framebuffer.AroundSpec | src/framebuffer.c:62-70 | The bounding rectangle covers both, and everything that covers both covers it |
| Blending.BlendExtremes | src/framebuffer.c:206-209 | Opaque source pixels replace, transparent ones leave the destination |
| Blending.BlendMixes | src/framebuffer.c:210-216 | In between every 8-bit channel is (source * alpha + destination * (255 - alpha)) / 256, never above the larger of the two, and the result is opaque: the two channels multiplied in one word do not disturb each other |
| Framebuffer.Display.DrawPixel | src/framebuffer.c:163-168 | One backbuffer pixel changes and becomes pending |
| Framebuffer.Display.FillRect | src/framebuffer.c:170-176 | The fill changes exactly the clipped rectangle; pending damage covers it |
| Framebuffer.Display.ClearAll | src/framebuffer.c:178-181 | Clearing sets every pixel |
| Framebuffer.Display.Blit | src/framebuffer.c:218-235 | The blit mixes exactly the visible part through the source pitch: opaque pixels replace, transparent ones leave what was there, others mix channel by channel |
| Framebuffer.Display.Line | src/framebuffer.c:190-204 | Plots max(abs dx, abs dy)+1 points, each the rounded ideal point, and nothing else |
| Framebuffer.Display.MarkDamage | src/framebuffer.c:59-71 | Pending damage becomes the smallest rectangle around itself and the visible part of the new one, or stays when nothing is visible |
| Framebuffer.Display.ValidMeans | src/framebuffer.c:369-402 | The invariant kept by every operation: outside pending damage the screen shows the backbuffer, blended with the icon under the visible cursor |
| Framebuffer.Display.Present | src/framebuffer.c:430-439 | Afterwards nothing is pending and every pixel is as after a full redraw, with the icon over the backbuffer channel by channel |
| Framebuffer.Display.CursorMove | src/framebuffer.c:441-455 | Clamps the cursor; erasing the old footprint and overlaying the new one keeps the invariant |
| Framebuffer.Display.SetIcon | src/framebuffer.c:457-465 | Changing the icon keeps the invariant |
| Framebuffer.Display.HideCursor | src/framebuffer.c:475-480 | Hiding the cursor keeps the invariant |
| Framebuffer.LastPoint | src/framebuffer.c:190-204 | The line starts at the first end, and meets the last end exactly at the last point |
| Framebuffer.NextPoint | src/framebuffer.c:190-204 | One turn of the error-term loop moves to the next ideal point, in all octants |
| Bresenham.OnIdealLine | src/framebuffer.c:190-204 | After k turns the pen is at the ideal position rounded to the nearest pixel |
| Bresenham.WithinHalf | src/framebuffer.c:190-204 | Every point is within half a pixel of the ideal line along the minor axis |
| Bresenham.EndsAt | src/framebuffer.c:190-204 | The end is reached exactly at the last step |
| Bresenham.ErrorRange | src/framebuffer.c:190-204 | The doubled error term stays within three times the length |
| CopyArea.ClipSpec | user/demonx_server.c:611-626 | The two-sided clipping keeps exactly the requested pixels that are inside both drawables |
| CopyArea.Copier.Copy | user/demonx_server.c:597-666 | For any overlap, offsets and chunk size the destination holds the source's old pixels on exactly the wanted part, nothing else changes, and the reported damage covers exactly that part |
| CopyArea.Copier.CopyRow | user/demonx_server.c:637-659 | One row in chunks, from the side that keeps unread pixels intact |
| CopyArea.Copier.CopyRows | user/demonx_server.c:630-660 | All rows, bottom up when that is needed |
| Checksums.Ipv4Checksum | src/network.c:155-164 | The sum folded after every word is the canonical residue of the plain word sum |
| Checksums.TransportChecksum | src/network.c:286-298 | The sum folded once at the end, over pseudo header and segment with an odd last byte, is the same residue |
| Checksums.CanonAdd | src/network.c:275-284 | Folding part of a sum early does not change the folded total |
| Checksums.VerifiesWhen | src/network.c:352-361 | A block verifies if and only if its plain sum is a positive multiple of 65535 |
| Checksums.FilledVerifies | src/network.c:675-695 | A zero field replaced by the complement of the sum makes the block verify |
| Checksums.ChangedWordNoticed | src/network.c:300-304 | Two blocks that both verify and differ in one word differ there only as 0 and 65535 |
| Wire.ChecksumExample | src/network.c:275-284 | The numerical example of RFC 1071 section 3 |
| Wire.PseudoIsWords | src/network.c:286-298 | The pseudo header of RFC 9293 section 3.1 word by word |
| Wire.Ipv4Law | src/network.c:352-386 | A packet written field by field after RFC 791 section 3.1 passes exactly as version 4, unfragmented, complete and with a header that sums up; its payload is what the total length covers |
| Wire.TcpLaw | src/network.c:300-316 | A segment written field by field after RFC 9293 section 3.1 reads back field by field exactly when it sums up with its pseudo header |
| Wire.FrameLaw | src/network.c:584-622 | The builders' frames are such headers with their checksums filled in, the data, and zeros |
| Wire.ArrivalLaw | src/network.c:352-386 | A whole frame so written reaches the connection, padding ignored, exactly when the link is up, it has 60 bytes and the segment sums up |
| Wire.SegmentLaw | src/network.c:317-350 | A segment is taken exactly when it has no data or fits into 4096 bytes and starts a buffer or is of the pending connection with the next number; then its data is appended; every FIN is noted, a SYN-ACK only when taken |
| Packets.FrameDecodes | src/network.c:352-386 | What the builders write the parsers read back, field by field, exactly when the frame reaches 60 bytes |
| Packets.DataRoundTrip | src/network.c:656-699 | A data frame fed back is accepted if and only if it carries at least six bytes, and then yields the same bytes and sequence + length |
| Packets.FinRoundTrip | src/network.c:584-622 | A FIN frame fed back is always accepted and leaves its closing sequence number |
| Packets.AlteredSegmentRefused | src/network.c:300-305 | A segment with one altered word is refused, save for the two spellings of zero |
| Network.WriteFrame | src/network.c:670-695 | The bytes written are the Ethernet, IPv4 and TCP headers, the payload and zero padding, with both checksums |
| Network.Stack.BuildTcpData | src/network.c:656-699 | When it refuses, what it writes, and that it forgets the pending bytes and FIN |
| Network.Stack.BuildTcpFrame | src/network.c:584-622 | When it refuses and what it writes |
| Network.Stack.BuildTcpSyn | src/network.c:624-632 | Forgets an earlier SYN-ACK even when it refuses |
| Network.Stack.BuildTcpFin | src/network.c:701-709 | A FIN frame, refused as any other |
| Network.Stack.TcpRemoteFin | src/network.c:711-720 | The closing sequence number, exactly for the connection that closed |
| Network.Stack.SetDevice | src/network.c:142-146 | A device brings the link from absent to down |
| Network.Stack.SetLink | src/network.c:148-151 | Without a device the link stays absent |
| Network.Stack.SetIpv4 | src/network.c:153-153 | Our own address |
| Network.Stack.ReceiveTcp | src/network.c:300-350 | The receiver in place: checks, FIN note, data, SYN-ACK note |
| Network.Stack.ReceiveEthernet | src/network.c:369-386 | The whole receive path in place equals the parsing function |
| Network.Stack.TcpReceive | src/network.c:722-738 | Copies what fits, reports the next sequence number, empties the buffer; refusal changes nothing |
| Network.Loopback | src/network.c:656-738 | Build, receive and read in a row return the bytes that went in |
| TcpStream.RunHolds | src/network.c:300-350 | After any interleaving of frames, reads and sends the pending bytes are the accepted segments of one connection since the last empty buffer, each starting where the log before it ends |
| TcpStream.ContiguousUnlessFin | src/network.c:317-340 | At most 4096 bytes are pending, and the next sequence number is the first plus the length if and only if no accepted data segment carried FIN |
| TcpStream.BufferIsStretch | src/network.c:300-350 | If a sender's segments are pieces of one stream, lost, repeated and reordered at will, the buffer is one contiguous stretch of it |
| TcpStream.ReadLosesNothing | src/network.c:722-738 | The reported sequence number matches the bytes handed over if and only if the caller's buffer holds everything pending |
| Elf64.ExecutableLayout | src/elf64.c:42-82 | Accepts exactly the well-formed images whose entry lies in an executable segment, and returns their tightest range |
| Elf64.SpanFits | src/elf64.c:90-94 | The flat loader's wrapping comparison and the paged loader's explicit wrap check admit the same images |
| ElfImage.ImageReads | src/elf64.c:10-66 | An image written header field by field and row by row is seen with the count, entry point and rows it was written with, and the header passes exactly when it is that of a little-endian x86-64 executable |
| ElfImage.ExecutableLaw | src/elf64.c:46-82 | It is an executable if and only if its header is proper, every loadable row lies in the file, is no larger there than in memory and does not wrap, and an executable one holds the entry point |
| ElfImage.AcceptsLaw | src/elf64.c:84-108 | It is loaded if and only if besides the block does not wrap and holds every loadable row |
| ElfImage.LayoutLaw | src/elf64.c:69-82 | The reported range is the lowest address and the highest end of the written rows |
| ElfImage.LoadedByte | src/elf64.c:110-137 | A loaded byte with file contents is that of the last row that has it |
| ElfImage.LoadedZero | src/elf64.c:110-137 | Every other byte is zero: between file and memory size, and between rows |
| Elf64.SecondRoundNeverFails | src/elf64.c:110-133 | Every check the flat loader repeats while copying is settled by the layout |
| Elf64.LoadExecutable | src/elf64.c:84-137 | On acceptance later segments overwrite earlier ones and all else is zero; on refusal the memory is untouched |
| Elf64.LoadExecutablePages | src/elf64.c:139-171 | Accepts exactly the images that fit, with usable frames; distinct frames then hold the block; nothing outside the frames changes |
| Elf64.FrameIsSlice | src/elf64.c:153-168 | Each frame is the 4096-byte slice of the block at its place in the table |
| Elf64.LoadBothWays | src/elf64.c:84-171 | Both loaders accept the same images with the same entry point, and distinct frames gathered in order are the flat memory |
| Ramfs.CheckName | src/ramfs.cpp:99-129 | The single pass accepts exactly the names whose every segment is valid |
| Paths.NameLaw | src/ramfs.cpp:99-129 | A name is valid if and only if it has 1 to 63 characters and, after an optional leading slash, every segment is made of letters, digits, dots, dashes and underscores and is neither empty nor one or two dots |
| Ramfs.FindChild | src/ramfs.cpp:167-191 | The index arithmetic finds the immediate child that leads to the file |
| Ramfs.List | src/ramfs.cpp:366-416 | Entry k of a directory: files always, a subdirectory once, at its lowest slot |
| Ramfs.FileListed | src/ramfs.cpp:366-416 | A file is listed with its length if and only if some slot holds that path |
| Ramfs.DirectoryListed | src/ramfs.cpp:385-406 | A subdirectory is listed, with length 0, if and only if some file lies below it and no earlier slot holds one below it or of its very name |
| Ramfs.ListedInOrder | src/ramfs.cpp:380-412 | Entries come in slot order, none twice |
| Ramfs.DuWalk | src/makobox.c:1358-1388 | Terminates, never fills its path buffer, and totals the files a walk reaches |
| Ramfs.DuRoot | src/makobox.c:1390-1394 | The walk from the root totals `ramfs_bytes_used` if and only if no nonempty file has a masked directory on its path |
| Ramfs.CountBytes | src/ramfs.cpp:336-343 | The sum of all lengths |
| Ramfs.RamDisk.Open | include/kernel/bounded_table.h:69-87 | Succeeds exactly for a valid name that is known, or may be created while a slot is free; it changes nothing or claims the first free slot; names stay distinct and valid |
| Ramfs.RamDisk.Delete | src/ramfs.cpp:242-247 | Frees exactly the named slot |
| Ramfs.RamDisk.Rename | src/ramfs.cpp:249-258 | Succeeds exactly for a known old and an unused new name; the bytes stay |
| Ramfs.RamDisk.Write | src/ramfs.cpp:131-144 | Succeeds exactly when the bytes fit the old extent or the rest of the arena; the file then reads back, only a larger file takes arena space, and no other file changes |
| Ramfs.RamDisk.SeedReference | src/ramfs.cpp:203-216 | Succeeds exactly for a known file that is still empty or a new name with a slot free; it then reads as the outside bytes and no other file changes |
| Paths.ChildIsPrefix | src/ramfs.cpp:167-191 | A listed subdirectory is a proper prefix of the file's path, one segment longer than its parent |
| Paths.PrefixIsChild | src/ramfs.cpp:167-191 | Conversely every file below a joined path is a child by that segment |
| Paths.EntriesTotal | src/ramfs.cpp:366-416 | The entries of a directory add up to the files below it that a walk reaches, each once |
| Paths.WalkMisses | src/makobox.c:1358-1388 | Stored bytes are the walked bytes plus those of unreached files; equal if and only if every unreached file is empty |
| Paths.ReachedUnlessMasked | src/ramfs.cpp:385-406 | A file is missed if and only if some directory on its path bears the name of a file in a slot before everything inside it |
| Paths.ExactWithoutPrefixes | src/makobox.c:1358-1388 | With no file named like a directory of another the walk is exact |
| Paths.WalkMissesExample | src/ramfs.cpp:385-406 | A concrete table, "a" before "a/b", on which the walk misses bytes |
| EditorText.PressValid | src/makobox.c:817-863 | The cursor and the line limits stay valid under every key |
| EditorText.PressEdits | src/makobox.c:738-807 | Every key that is not refused inserts, removes or passes exactly one character of the flat text at the cursor, or moves without changing it |
| EditorText.RefusedKeeps | src/makobox.c:781-807 | A refused key leaves the text; all but Delete leave the cursor too, and Delete has then stepped to the next line |
| EditorFlat.PressFlat | src/makobox.c:738-863 | Every key, refused or not, Up, Down, Home and End included, does to one flat text with a gap what the row-free FlatPress says |
| EditorFlat.FlatRun | src/makobox.c:817-863 | The line editor and the flat editor stay together over every run of keys |
| EditorFlat.RefusedFlat | src/makobox.c:738-807 | A key is refused for the rows exactly when it is for the flat text |
| EditorText.HomeEnd | src/makobox.c:833-836 | Home and End stay on the line, at its two ends |
| EditorText.TypingUndone | src/makobox.c:738-775 | Backspace takes back a typed character exactly |
| EditorText.EnterUndoneUnlessFull | src/makobox.c:749-792 | Backspace takes back Enter if and only if the line had fewer than 79 characters |
| EditorText.GapIsFlat | src/makobox.c:624-632 | The two sides of the cursor together are the whole text |
| EditorText.GapDeterminesDoc | src/makobox.c:624-632 | The flat text with its cursor determines lines, row and column |
| EditorText.LoadRestores | src/makobox.c:640-690 | Loading what was saved gives back every line, including empty and trailing ones |
| EditorText.LoadedValid | src/makobox.c:640-674 | Any bytes load as a valid document |
| EditorLoad.LinesJoin | src/makobox.c:640-674 | The lines of a text joined by newlines are the text |
| EditorLoad.LoadLaw | src/makobox.c:640-674 | Any bytes load as their first 200 lines, each cut to 79 characters and ended at its first NUL; an empty file is one empty line |
| Editor.Screen.InsertChar | src/makobox.c:738-747 | The shifting loop in place |
| Editor.Screen.SplitLine | src/makobox.c:749-765 | The row shift and cut in place |
| Editor.Screen.Backspace | src/makobox.c:767-792 | The cell shift, merge and row shift in place |
| Editor.Screen.DeleteForward | src/makobox.c:797-807 | Step right, then backspace, in place |
| Editor.Screen.Press | src/makobox.c:817-863 | One turn of the editing loop in place; it marks the text modified exactly when it changes it |
| Editor.Screen.Save | src/makobox.c:676-690 | The buffer holds every line with a newline and always has room |
| Editor.Reopen | src/makobox.c:640-690 | Saving and opening again in place gives the same lines |
| Quicksort.SwapElements | apps/doom/libc.c:241-249 | Swapping bytes swaps elements of any size, even one with itself |
| Quicksort.MedianOfThree | apps/doom/libc.c:254-261 | Only moves elements inside the range, also when the middle is the first |
| Quicksort.Partition | apps/doom/libc.c:262-269 | The pivot lands with smaller elements left and the others right |
| Quicksort.Sort | apps/doom/libc.c:251-282 | Ends for every comparator without an index below zero, rearranges only the range, and sorts it for a total preorder |
| Quicksort.PartSorted | apps/doom/libc.c:270-281 | Sorting one side leaves only the other side out of order, which is why looping on it suffices |
| Quicksort.Qsort | apps/doom/libc.c:284-288 | A permutation for every comparator, sorted for every total preorder; bytes after the elements are untouched |

## Left out

Kernel:
- Hardware and boot: page tables, FXSAVE and interrupt frames. A register image is an abstract value that is copied.
- Resolving an IPC handle to a channel is a parameter of the machine; handles are modelled in `Capabilities`.
- `userspace_copy_to` always succeeds, and user address ranges are valid.
- Statistics counters (sent, dropped, denied, processor ticks), snapshots and self tests.
- Connecting to a channel by name (src/ipc.c:77-82): a search without state.
- Wakes and cancellations issued by launching an application (src/makobox.c:2391-2493) and by the syscall that reaps any exited child.
- The contents of input events other than their kind.
- Waiting by polling the network or the disk.

Heap:
- PortKit.PortHeap.Init: only the fixed arena; the arena obtained from anonymous memory and its shutdown are not modelled.
- `heap_peak` is only known to be at least `heap_used`; file access and console wrappers around the allocator are not modelled.
- PortKit.PortHeap.Free: a pointer that the heap did not hand out is outside the model, as it is outside the source's contract.

Surfaces and display:
- Surface damage rectangles (src/surface.c:155-183) and the size check when the arena is registered.
- Page table edits of a mapping are a yes-or-no parameter.
- Conversion to the native pixel format (src/framebuffer.c:334-361) is one abstract function of a pixel; byte layout and pitch of the scanout memory are not modelled.
- Blending.Blend: the masks and shifts of the 32-bit word are written as remainders and quotients; the width of every sum is checked to stay below 2^32.
- Glyphs, borders and the boot picture: loops over the operations that are modelled.
- Framebuffer.Display.Line: coordinates do not overflow 32 bits, which `Bresenham.ErrorRange` shows for lines shorter than 2^31 / 3.
- CopyArea.Copier.Copy: the surface write of a checked range succeeds, so the code -3 is not modelled; a drawable is one array, equal handles being the same array.

Network:
- ARP, DHCP, DNS and HTTP. Their receivers touch none of the modelled state; their verdict is a parameter.
- Network.Stack.BuildTcpData: the payload is a value, so it cannot overlap the frame being built.
- The SYN-ACK poll (src/network.c:634-644), a comparison of stored fields, and frame counters.

ELF:
- Elf64.LoadExecutablePages: nothing is said about the contents of a table that lists a frame twice, which the caller's frame allocator never gives; physical memory is one array indexed by frame address.

Files and editor:
- Reads by range and read-only views of a file, and seeding by copy, which is `Open` and `Write`.
- Printing by `du`; names and paths are sequences of characters.
- Rendering and scrolling of the editor; keyboard polling; the key that leaves, which saves a modified text.
- Editor.Screen.Save: whether the file system takes the bytes is a parameter.

Sort:
- Quicksort.Qsort: the comparison is a function of the two elements, without side effects.
- No bound on the recursion depth is claimed: the code recurses on the smaller part, except that it recurses on all the rest when the pivot is the least element.

Not modelled at all: the window tree and request dispatch of the display server, the C++ runtime
allocators, the web client, the shell, terminal, ports and games.
