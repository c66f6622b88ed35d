# A verified model of WindowServer

WindowServer is a Windows chat server written in C++. This project models its four hard parts in
Dafny and proves what they keep, and exactly where they fail:

* the **slab allocator** - `MemoryPool` cuts large regions into groups, `ObjectPool` cuts groups into
  objects and threads the free ones on a lock-free list whose links live in the free objects' own
  bytes, `PoolingManager` makes one pair of pools per packet type;
* the **thread pool** - a counting semaphore, a mutex-guarded job queue, a counter of unfinished jobs
  and a finish flag;
* the **database connections and the room services** - a pool of forty connections, the autocommit
  mode each one carries, and the transactions that enter and leave rooms;
* the **packets of a room** - the two-pass serialiser of a room's history and members, and the parser
  that walks the same layout.

`dafny verify dfyconfig.toml` checks everything.

## How it is built

| files | content |
|---|---|
| `Options`, `Bytes`, `Slicing` | machine words and network order (Appendix B of RFC 791), cutting blocks into pieces |
| `Memory`, `SlabStore`, `SlabSystem`, `SlabRuns` | the list in memory, the pools' operations, a step system with any number of threads, and its runs |
| `SlabTheorems`, `SlabRefinement`, `SlabSolo`, `SlabProgress` | what every run keeps, refinement of an atomic allocator, uninterrupted calls, and allocations that come to an end |
| `SlabOverlap`, `SlabStray`, `SlabDepth` | runs that go wrong: sizes that do not divide, and a depth field that wraps |
| `SlabPools`, `PoolingManagers`, `PacketSizes` | the classes that update memory in place, and the pooled packet types |
| `ThreadPoolSystem`, `ThreadPoolTheorems`, `ThreadPools` | the worker and submitter protocol, its theorems, and the class |
| `ConnectionPool` | the semaphore, lock and queue of `DatabasePool` and the mode of every connection, with any number of clients |
| `RoomTables`, `RoomSpec`, `RoomTheorems`, `RoomRuns`, `RoomOrder`, `RoomServices` | tables and statements, one call of each service, whole runs, the order of rooms and members, and the classes |
| `RoomClients` | serial runs of the services are runs of `ConnectionPool` |
| `MessageCodec`, `MemberCodec` | the history packet and the members packet |

The concurrent parts are step systems: a state, an `Enabled` predicate, an `Apply` function, and an
invariant shown for the start state and every step. Properties are then stated of every reachable
state. The classes are proved equal to functions on values; those functions
are shown to be runs of the step systems (for the room services, as far as connections and results go). What the environment decides (the region the system
grants, whether a statement or a commit succeeds) is a parameter, so every theorem holds for all its
choices.

## What the code does not do

Where the expected property fails, the condition under which it fails is proved exactly; where failing is
a matter of the state, a failing state is shown to be reachable.

* **Five packet types do not fit their groups.** The pools cut 1024-byte groups into objects of the
  packet's rounded size without asking whether it divides 1024. For `LoginPacket`, `JoinPacket`,
  `ResultPacket`, `CreateRoomPacket` and `EntryRoomPacket` it does not: the last object of each group
  overhangs it by 128, 16, 128, 32 or 64 bytes (`WhichPacketsDivide`), and for exactly those types two
  packets in use can share bytes (`WhichPacketsOverlap`, `OverlapExactly`). An owner that writes into its own
  last object then changes the link of the next group's free first one, and the pool hands out an address that
  is no slot at all (`WhichPacketsStray`, `StrayExactly`). All other allocator theorems assume that the
  group size divides the region size and the object size the group size.
* **The pool can grow with 65536 slots free.** The re-check under the mutex reads a 16-bit depth, so a thread
  that saw the list empty can find any multiple of 65536 free slots and allocate memory all the same
  (`NeedlessGrowth`); otherwise it grows only when nothing is free (`GrowthDecision`).
* **Jobs can be stranded.** The semaphore refuses a release above the number of threads, so a queue
  that may hold more jobs than there are threads can leave one behind in an idle pool, and only such a
  queue can (`StrandingExactly`). `WindowServer/ServerApp.cpp:15-16` uses 10 threads and 300 jobs.
* **Shutdown with queued jobs never ends.** A worker that sees `IsFinish` leaves without decrementing,
  so the wait in `EndThreadPool` can end if and only if no queued job is unclaimed (`ShutdownExactly`,
  reachable by `HangReachable`). The bulk release fails whole if a permit is outstanding at that moment; then
  workers can be left waiting for ever (`WorkersExitExactly`, `LeftWaitingReachable`). Whether all leave can
  depend on who moves between the two statements of `EndThreadPool` (`EveryShutdownLeaves`).
* **Entry without a password loses its connection.** Success on an empty stored password returns
  without `PushWrapper` (`WindowServer/Source/Services/EntryRoomService.cpp:27`). An unknown room and a
  failed fetch read as an empty password too (`EntryLeaksExactly`), so entry to a room that does not
  exist succeeds, writes nothing and loses the connection (`MissingRoomEntry`). After forty losses
  nobody gets a connection again (`LostExactly`, `ServiceExactly`).
* **A failed member count leaves a transaction open.** `ExitRoom` with a count of -1 returns its
  connection with autocommit off (`ExitTaintsExactly`, `QueuedModeExactly`). A room later created on that
  connection is reported as created and is not committed (`CreateUncommittedExactly`,
  `UncommittedCreateReachable`) until some other call on the connection commits it, or drops it
  (`UncommittedRoomFate`).
* **A room can outlive its last member.** If only the deletion of the room fails when the last member
  leaves, the rest is committed. This is the one way for members who do not enter twice to break the order of
  rooms and members; failed counts and the transactions they leave open do not (`CallKeepsExactly`).
* **`ExitRoom` returns true only when it destroyed the room.** An ordinary exit that leaves others
  behind returns false although it succeeded (`ExitTables`), and so the controller reports a failure.
* **`ExitRoom` does not ask whether the leaver is a member.** An outsider's exit destroys a room that
  has one row left (`OutsiderExit`). `RoomMember` has no unique key, so `INSERT IGNORE` adds repeated
  rows, and a room can be left without members (`ExitKeepsOrderExactly`).
* **Member ids are sent in the host's byte order**, unlike every other integer (`MemberIdOrder`).

## Model

| member | source | states |
|---|---|---|
| Bytes.NetworkOrder | WindowServer/Source/Controllers/RequireRoomInfoController.cpp:53-65 | the order of bytes on the wire is most significant first |
| Bytes.HtonlIsNetworkOrder | WindowServer/Source/Controllers/RequireRoomInfoController.cpp:53-65 | a value passed through htonl and stored by the host lies in memory in network order |
| Bytes.HtonlInvolution | WindowServer/Header/SendMsgTypes.h:244-254 | htonl and ntohl undo one another on every 32-bit value |
| Slicing.SliceCount | WindowServer/Header/Pool/ObjectPool.h:129-135 | the slicing loop yields the rounded-up quotient of block and step |
| Slicing.SlicesApart | WindowServer/Source/Pool/MemoryPool.cpp:25-30 | the pieces of one block never overlap, whatever the sizes |
| Slicing.SliceOverhang | WindowServer/Header/Pool/ObjectPool.h:129-135 | all pieces stay inside the block if and only if the step divides it; otherwise exactly the last overhangs, by a stated amount |
| Slicing.CutApart | WindowServer/Source/Pool/MemoryPool.cpp:25-30 | blocks that do not overlap are cut into pieces none of which overlap |
| Slicing.NeighboursCollide | WindowServer/Header/Pool/ObjectPool.h:129-135 | if the step does not divide the block, the last piece of a block and the first of the next share bytes |
| Slicing.SlotsApartExactly | WindowServer/Header/Pool/ObjectPool.h:122-135 | the slots of all groups of a region are pairwise disjoint if and only if the slot size divides the group size or there is one group |
| Slicing.SlotsInsideExactly | WindowServer/Header/Pool/ObjectPool.h:122-135 | they all stay inside the region if and only if the slot size divides the group size |
| PacketSizes.WhichPacketsFit | WindowServer/Header/Pool/PoolingManager.h:39-42 | for exactly the five types, slots of one region share bytes, and one of them leaves the region |
| PacketSizes.WhichPacketsDivide | WindowServer/Header/Pool/PoolingManager.h:45-52 | every pooled packet passes the 16-byte check; the sizes of exactly five do not divide the group, with their overhangs |
| PacketSizes.WhichPacketsOverlap | WindowServer/Header/SendMsgTypes.h:38-134 | for exactly those five a state is reachable in which two packets in use share bytes |
| PacketSizes.WhichPacketsStray | WindowServer/Header/SendMsgTypes.h:38-134 | for exactly those five a state is reachable in which a packet is in use at an address that is no slot |
| SlabOverlap.OverlapExactly | WindowServer/Header/Pool/ObjectPool.h:70-136 | two objects in use can share bytes, in some run from start-up, if and only if the object size does not divide the group size |
| SlabStray.StrayExactly | WindowServer/Header/Pool/ObjectPool.h:70-136 | owners writing inside their own objects can lead the pool to hand out an address that is no slot of any group, if and only if the object size does not divide the group size |
| SlabOverlap.PushAllChain | WindowServer/Header/Pool/ObjectPool.h:131-135 | pushing slots whose first bytes are apart puts them on the list in reverse, whatever the slot size |
| Memory.ChainUnique | WindowServer/Header/Pool/ObjectPool.h:77 | memory alone determines which slots the list visits |
| Memory.ChainAcyclic | WindowServer/Header/Pool/ObjectPool.h:77 | a list that ends meets no slot twice |
| Memory.ChainFrame | WindowServer/Header/Pool/ObjectPool.h:113-115 | a write that changes no link of the list leaves what it visits |
| Memory.ChainPush | WindowServer/Header/Pool/ObjectPool.h:115 | pushing writes the old top into the slot's own bytes and puts the slot in front of the same list |
| SlabStore.SlotsApart | WindowServer/Header/Pool/ObjectPool.h:120-136 | the slots of all groups handed out, of all regions, are pairwise disjoint |
| SlabStore.LayoutCarve | WindowServer/Source/Pool/MemoryPool.cpp:34-42 | taking a group, from the queue or from a new region, keeps regions and groups accounted for and apart |
| SlabStore.FirstRegion | WindowServer/Header/Pool/MemoryPool.h:10-13 | a pool just made holds one region, cut into zeroed groups |
| SlabSystem.StepKeeps | WindowServer/Header/Pool/ObjectPool.h:70-136 | every step of every thread keeps the invariant: links in memory visit exactly the free slots, each slot is free, in use or pending exactly once, free memory is zero behind its link, one lock holder |
| SlabRuns.RunKeeps | WindowServer/Header/Pool/ObjectPool.h:70-136 | the invariant holds along every interleaving of any number of threads |
| SlabTheorems.InitHolds | WindowServer/Header/Pool/ObjectPool.h:8-20 | what the two constructors leave, whatever was in memory, satisfies the invariant for any number of threads |
| SlabTheorems.FreeListExact | WindowServer/Header/Pool/ObjectPool.h:77-96 | in every reachable state the links end, repeat nothing, and visit exactly the slots that are neither in use nor about to be pushed |
| SlabTheorems.ObjectsExclusive | WindowServer/Header/Pool/ObjectPool.h:95-96 | an object in use shares no byte with another object, a free slot or a queued group |
| SlabTheorems.EverythingAligned | WindowServer/Source/Pool/MemoryPool.cpp:17-30 | every slot and group of every reachable state is 16-byte aligned |
| SlabTheorems.OneGrower | WindowServer/Header/Pool/ObjectPool.h:80-86 | at most one thread is ever inside growth, and it holds the mutex |
| SlabTheorems.OnlyGrowthTouchesPool | README.md:48 | the MemoryPool, which has no lock of its own, and HeadMemory change only in a step of the mutex holder |
| SlabTheorems.Conservation | WindowServer/Header/Pool/ObjectPool.h:128-135 | free, used and pending slots are groups handed out times slots per group; groups handed out and queued are regions times groups per region |
| SlabTheorems.HandedOutClean | WindowServer/Header/Pool/ObjectPool.h:95 | what a pop hands out was not in use and is zero but for its link |
| SlabTheorems.GrowthDecision | WindowServer/Header/Pool/ObjectPool.h:81-85 | the re-check grows exactly when the number of free slots is a multiple of 65536, the width of the depth field; below that, exactly when none is free |
| SlabDepth.NeedlessGrowth | WindowServer/Header/Pool/ObjectPool.h:78-85 | for every multiple of 65536 a state is reachable in which so many slots are free and a thread that has seen the list empty decides to grow |
| SlabTheorems.NoFault | WindowServer/Header/Pool/ObjectPool.h:113-115 | no step, the clearing of a new region included, touches a byte outside the regions or inside another thread's object |
| SlabTheorems.OnlyTouched | WindowServer/Header/Pool/ObjectPool.h:70-136 | no step of a thread changes a byte outside those that `NoFault` places |
| SlabTheorems.NoDeadlock | WindowServer/Header/Pool/ObjectPool.h:73-93 | a thread that cannot move waits for a mutex holder that can |
| SlabTheorems.HolderProgress | WindowServer/Header/Pool/ObjectPool.h:80-86 | each step of the mutex holder lowers its distance to the release, and no other step moves it or takes the mutex from it |
| SlabTheorems.HolderBound | WindowServer/Header/Pool/ObjectPool.h:80-86 | however the others interleave, a thread takes only boundedly many steps while it has the mutex |
| SlabTheorems.MutexReturned | WindowServer/Header/Pool/ObjectPool.h:80-86 | on its own, memory being granted, the holder gives the mutex back |
| SlabProgress.StepsBounded | WindowServer/Header/Pool/ObjectPool.h:70-98 | n threads that only allocate take a bounded number of steps, however they interleave: n * (n * d + 1 + d) for d = slots per group + 9 |
| SlabProgress.EveryCallerServed | WindowServer/Header/Pool/ObjectPool.h:70-98 | of threads that only allocate nobody loses an object or leaves without a new one of its own, and when none can go on while memory can be granted all have left with one |
| SlabProgress.RunOut | WindowServer/Header/Pool/ObjectPool.h:70-98 | from every state they can go on until none can take another step |
| SlabTheorems.DestroyReturnsEverything | WindowServer/Header/Pool/ObjectPool.h:23-31 | after the destructor the group queue is a permutation of all groups ever created, all zero, the list is empty and every entry of HeadMemory null |
| SlabRefinement.StepRefines | WindowServer/Header/Pool/ObjectPool.h:70-136 | each step is one action, or none, of an atomic allocator on a free set and a table of owners |
| SlabRefinement.RunRefines | WindowServer/Header/Pool/ObjectPool.h:70-136 | every run of the threads is a run of that allocator, action by action |
| SlabRefinement.NeverHandedOutTwice | WindowServer/Header/Pool/ObjectPool.h:70-117 | in every run from start-up, an address handed out twice was freed in between |
| SlabSolo.SlicingAlone | WindowServer/Header/Pool/ObjectPool.h:131-135 | the slicing loop run by one thread is the push of all slices of its group |
| SlabSolo.GrowFills | WindowServer/Header/Pool/ObjectPool.h:120-136 | growing leaves the list non-empty, so a retry succeeds |
| SlabSolo.SoloAllocate | WindowServer/Header/Pool/ObjectPool.h:70-97 | an uninterrupted AllocateObject ends, with an object that was not in use, in the state the whole-call function gives |
| SlabSolo.SoloFree | WindowServer/Header/Pool/ObjectPool.h:111-117 | an uninterrupted FreeObject is a clear and a push |
| SlabSolo.AllocateSound | WindowServer/Header/Pool/ObjectPool.h:70-97 | a whole allocation keeps the pool's invariant |
| SlabSolo.FreeSound | WindowServer/Header/Pool/ObjectPool.h:111-117 | a whole free keeps the pool's invariant |
| SlabSolo.CreateSound | WindowServer/Header/Pool/ObjectPool.h:8-20 | construction establishes the invariant, for any number of threads yet to call |
| SlabSolo.PushThenPop | WindowServer/Header/Pool/ObjectPool.h:77 | a pop undoes a push, but for the link left in the popped bytes |
| SlabSolo.FreeThenAllocate | WindowServer/Header/Pool/ObjectPool.h:111-117 | the object freed last is the next handed out, and everything else is as it was |
| SlabPools.MemoryPool.constructor | WindowServer/Header/Pool/MemoryPool.h:10-13 | one region is recorded and cut |
| SlabPools.MemoryPool.CreateMemory | WindowServer/Source/Pool/MemoryPool.cpp:15-32 | the region is zeroed and all its groups are queued in order |
| SlabPools.MemoryPool.Allocate | WindowServer/Source/Pool/MemoryPool.cpp:34-42 | the oldest group is handed out; an empty queue is refilled from a new region first |
| SlabPools.MemoryPool.Free | WindowServer/Source/Pool/MemoryPool.cpp:44-50 | the group is zeroed and queued last, the caller's pointer nulled |
| SlabPools.ObjectPool.constructor | WindowServer/Header/Pool/ObjectPool.h:8-20 | one group's objects are on the list, whatever their size; the pool is valid if they fill the group |
| SlabPools.ObjectPool.PushSlices | WindowServer/Header/Pool/ObjectPool.h:129-135 | the loop pushes exactly the slices of the group, the overhanging one included |
| SlabPools.ObjectPool.AllocateMemory | WindowServer/Header/Pool/ObjectPool.h:120-136 | the object's fields and memory end as growth prescribes |
| SlabPools.ObjectPool.AllocateObject | WindowServer/Header/Pool/ObjectPool.h:70-97 | the retry loop ends; the result is a fresh object and the pool stays valid |
| SlabPools.ObjectPool.FreeObject | WindowServer/Header/Pool/ObjectPool.h:111-117 | the object is zeroed and pushed, and the pool stays valid |
| SlabPools.ObjectPool.Destroy | WindowServer/Header/Pool/ObjectPool.h:23-31 | the loop gives back every group of HeadMemory and nulls its entry |
| PoolingManagers.PoolingManager.CreateObjectPoolManager | WindowServer/Header/Pool/PoolingManager.h:45-60 | exit exactly when the size is not a multiple of 16; otherwise pools are made, once, in the state in which the threads start |
| PoolingManagers.PoolingManager.GenerateObject | WindowServer/Header/Pool/PoolingManager.h:76-91 | pools are made on the first call only; every result is an object not in use, and the store is that of one whole allocation |
| PoolingManagers.PoolingManager.FreeObject | WindowServer/Header/Pool/PoolingManager.h:62-74 | the object is no longer in use, the pointer is nulled, the pools stay valid, and the store is that of one whole free |
| ThreadPoolSystem.StepKeeps | WindowServer/Source/Pool/ThreadPool.cpp:4-132 | every step of workers, submitter and shutdown keeps the invariant, for all parameters |
| ThreadPoolSystem.FetchFinds | WindowServer/Source/Pool/ThreadPool.cpp:103-107 | a worker that holds a permit and fetches finds a job |
| ThreadPoolSystem.OutstandingMoves | WindowServer/Source/Pool/ThreadPool.cpp:92-97 | queued jobs plus fetched and undecremented ones plus a submitter between increment and push change only at the increment and the decrement |
| ThreadPoolSystem.RunKeeps | WindowServer/Source/Pool/ThreadPool.cpp:4-132 | the invariant holds along every interleaving, shutdown included |
| ThreadPoolTheorems.JobsInOrder | WindowServer/Source/Pool/ThreadPool.cpp:86-111 | jobs fetched followed by jobs queued are the jobs accepted, in order; the queue never exceeds its capacity |
| ThreadPoolTheorems.EmptyQueueBranchUnreachable | WindowServer/Source/Pool/ThreadPool.cpp:103-107 | in every reachable state a fetch returns the oldest job |
| ThreadPoolTheorems.CounterExact | WindowServer/Source/Pool/ThreadPool.cpp:26 | the unsigned counter is exactly the outstanding jobs and never underflows |
| ThreadPoolTheorems.SlackCountsLost | WindowServer/Source/Pool/ThreadPool.cpp:95 | queued jobs with no wake-up coming are exactly the releases refused along the run |
| ThreadPoolTheorems.SmallQueueRun | WindowServer/Source/Pool/ThreadPool.cpp:47 | no release is refused when the capacity is at most the number of threads |
| ThreadPoolTheorems.WorkerStepShrinks | WindowServer/Source/Pool/ThreadPool.cpp:10-27 | every worker step lowers a measure of permits and positions |
| ThreadPoolTheorems.ReachRest | WindowServer/Source/Pool/ThreadPool.cpp:10-27 | the workers alone always come to rest |
| ThreadPoolTheorems.AtRest | WindowServer/Source/Pool/ThreadPool.cpp:12-19 | when no worker can move, each is at its wait without a permit, or gone |
| ThreadPoolTheorems.LeftBehind | WindowServer/Source/Pool/ThreadPool.cpp:95 | at rest the jobs left in the queue are exactly as many as the wake-ups lost |
| ThreadPoolTheorems.EverythingRuns | WindowServer/Source/Pool/ThreadPool.cpp:119-125 | with a small queue, after boundedly many steps every accepted job has run once and the polled counter is zero |
| ThreadPoolTheorems.NoSlackWhenSmall | WindowServer/Source/Pool/ThreadPool.cpp:85-97 | every state such a pool reaches before shutdown has no lost wake-up |
| ThreadPoolTheorems.StrandingExactly | WindowServer/Source/Pool/ThreadPool.cpp:47 | an idle pool with a job in its queue is reachable if and only if the capacity exceeds the number of threads |
| ThreadPoolTheorems.ShutdownExactly | WindowServer/Source/Pool/ThreadPool.cpp:119-132 | the wait after IsFinish can end if and only if no queued job is unclaimed; at rest the counter is the number of unclaimed jobs |
| ThreadPoolTheorems.HangReachable | WindowServer/Source/Pool/ThreadPool.cpp:119-132 | a state from which that wait never ends is reachable exactly if the pool accepts jobs |
| ThreadPoolTheorems.WorkersExitExactly | WindowServer/Source/Pool/ThreadPool.cpp:12-19 | after the bulk release, every worker leaves if and only if no permit was outstanding at the release, or the permits then and the workers that had used one to leave are as many as the threads; otherwise exactly so many leave |
| ThreadPoolTheorems.EveryShutdownLeaves | WindowServer/Source/Pool/ThreadPool.cpp:127-132 | judged when IsFinish is set, all interleavings of the workers with the two statements end with every worker gone if and only if no permit is outstanding or permits and woken workers are as many as the threads; some interleaving always does |
| ThreadPoolTheorems.LeftWaitingReachable | WindowServer/Source/Pool/ThreadPool.cpp:127-132 | a state from which workers are left waiting is reachable exactly with two threads and a queue that accepts jobs |
| ThreadPoolTheorems.CleanShutdown | WindowServer/Source/Pool/ThreadPool.cpp:127-132 | from a pool with nothing to do, wherever the workers move, the bulk release succeeds with one permit per worker, and when the workers come to rest, after boundedly many steps, every one has exited |
| ThreadPoolTheorems.SubmitAlone | WindowServer/Source/Pool/ThreadPool.cpp:82-98 | an accepted SubmitJob, statement by statement, has the effect the class proves |
| ThreadPoolTheorems.EventAlwaysSet | WindowServer/Source/Pool/ThreadPool.cpp:46-94 | WorkingEvent is signalled from the start and nothing resets it |
| ThreadPools.PassAlone | WindowServer/Source/Pool/ThreadPool.cpp:10-27 | one pass of the worker loop is a run of the protocol that executes the oldest job |
| ThreadPools.ThreadPool.constructor | WindowServer/Source/Pool/ThreadPool.cpp:43-71 | the start state of the protocol |
| ThreadPools.ThreadPool.SubmitJob | WindowServer/Source/Pool/ThreadPool.cpp:82-98 | refused exactly when the queue is full, and then nothing changes; otherwise counted, queued and, if possible, signalled |
| ThreadPools.ThreadPool.GetNextJob | WindowServer/Source/Pool/ThreadPool.cpp:100-112 | the oldest job, removed; nothing from an empty queue |
| ThreadPools.ThreadPool.IsHasJobs | WindowServer/Source/Pool/ThreadPool.cpp:114-117 | whether some accepted job has not been fetched |
| ThreadPools.ThreadPool.OnePass | WindowServer/Source/Pool/ThreadPool.cpp:12-26 | one pass: leave on the finish flag, undecremented, or run a job if there is one and decrement |
| ThreadPools.ThreadPool.ThreadProc | WindowServer/Source/Pool/ThreadPool.cpp:4-29 | before shutdown one job per permit, oldest first; after it, out of the loop with the first permit; the whole is a run of the protocol |
| ThreadPools.ThreadPool.BeginShutdown | WindowServer/Source/Pool/ThreadPool.cpp:127-132 | the flag is set, the workers move as they like, and then one permit per thread is released if that fits |
| ThreadPools.ThreadPool.WaitForAllThreas | WindowServer/Source/Pool/ThreadPool.cpp:119-125 | the loop takes the first n turns of the other threads, the counter being above zero before each of them, and ends exactly when it sees it at zero |
| ThreadPools.ThreadPool.EndThreadPool | WindowServer/Source/Pool/ThreadPool.cpp:127-132 | flag, bulk release and polling: the state is the one after the release and the turns polled; it returns only if no queued job was unclaimed; if it has not when no worker can move, the counter is the number of unclaimed jobs; from an idle pool every worker has a permit to leave with, and at rest all have left |
| ConnectionPool.StepKeeps | WindowServer/Source/Pool/DatabasePool.cpp:27-45 | every step of pops, pushes and services keeps: semaphore and clients in between equal the queue; each connection is in one place; its mode follows from its history; losses are logged |
| ConnectionPool.PoolSafe | WindowServer/Source/Pool/DatabasePool.cpp:31-44 | in every run front() finds an element and the release-error branch is not taken |
| ConnectionPool.Exclusive | WindowServer/Source/Pool/DatabasePool.cpp:27-33 | no connection is with two clients, or with a client and in the queue |
| ConnectionPool.LostExactly | WindowServer/Source/Services/EntryRoomService.cpp:19-28 | however clients interleave, the connections lost are the entries that succeeded on an empty password, and all forty are accounted for |
| ConnectionPool.QueuedModeExactly | WindowServer/Source/Services/ExitRoomService.cpp:16-31 | however clients interleave, a queued connection has autocommit on unless a count failed on it and no transaction on it has ended since |
| ConnectionPool.TransactionMode | WindowServer/Source/Databases/DatabaseWrapper.cpp:56-59 | between start and end of a transaction its connection has autocommit off |
| ConnectionPool.BringBack | WindowServer/Source/Pool/DatabasePool.cpp:35-45 | clients that return what they hold always can |
| ConnectionPool.BackMeansIdle | WindowServer/Header/Pool/DatabasePool.h:10 | once they have, semaphore and queue are forty minus the lost connections |
| ConnectionPool.ServiceExactly | WindowServer/Source/Pool/DatabasePool.cpp:29 | some client can still pass the wait, now or later, if and only if fewer than forty connections are lost |
| RoomTables.RowsWithoutRoom | WindowServer/Source/Repositories/RoomMemberRepository.cpp:15-18 | the cascade removes a room's member rows and leaves every other room's |
| RoomTables.RowsWithoutMember | WindowServer/Source/Repositories/RoomMemberRepository.cpp:72-83 | the delete removes all rows of one user in one room, and nothing else |
| RoomTables.PasswordRoundTrip | WindowServer/Source/Repositories/ChattingRoomRepository.cpp:38-57 | a password stored through the fixed buffer and read back is its text before the first NUL; NUL-free ones come back unchanged |
| RoomTables.ReadsEmpty | WindowServer/Source/Repositories/ChattingRoomRepository.cpp:188-212 | the text compared is empty exactly for a missing room, a NULL password or one that starts with NUL |
| RoomTheorems.EntryEffect | WindowServer/Source/Services/EntryRoomService.cpp:10-49 | exactly when entry succeeds, and the tables then: one more member row behind the others if the insert succeeds and room and user exist, and otherwise nothing new; a connection left in a transaction brings what it had pending |
| RoomOrder.EntryEnters | WindowServer/Source/Services/EntryRoomService.cpp:19-39 | an entry that succeeds puts the user in the room, and the room among those ever entered, if the insert succeeds and both exist |
| RoomTheorems.CreateEffect | WindowServer/Source/Repositories/ChattingRoomRepository.cpp:28-67 | a create that succeeds adds exactly the next id, with the name up to its first NUL and the password likewise, NULL if it is empty; on a connection left in a transaction the same row is pending; a failed one changes nothing |
| RoomTheorems.MessageEffect | WindowServer/Source/Repositories/MessageRepository.cpp:28-40 | a message that succeeds is one more row behind the others, with its text, if room and user exist, or pending on a connection left in a transaction |
| RoomTheorems.EntryLeaksExactly | WindowServer/Source/Services/EntryRoomService.cpp:16-28 | the connection is lost exactly if query and commit succeed and the fetch failed, the room is missing, or it has no password |
| RoomTheorems.MissingRoomEntry | WindowServer/Source/Services/EntryRoomService.cpp:16-28 | entry to a room that does not exist succeeds, writes nothing and loses the connection |
| RoomRuns.EntryNeedsThePassword | WindowServer/Source/Services/EntryRoomService.cpp:16-39 | after any calls, failed ones included, an existing room lets in exactly those who give the password it was made with, or anyone if that is empty |
| RoomTheorems.ExitTables | WindowServer/Source/Services/ExitRoomService.cpp:10-33 | the statements an exit commits, its result, and the clean connection it returns |
| RoomTheorems.ExitRollsBack | WindowServer/Source/Databases/DatabaseWrapper.cpp:62-73 | a failed commit leaves the tables untouched and the connection clean |
| RoomTheorems.ExitEffect | WindowServer/Source/Services/ExitRoomService.cpp:17-24 | for every outcome of the statements: one row left and deleted takes the room, its rows and its messages; any other exit takes at most the user's rows of the room; other rooms, rows and messages never change |
| RoomTheorems.ExitKeepsOrderExactly | WindowServer/Source/Services/ExitRoomService.cpp:17-24 | exactly when a committed exit leaves the room existing if and only if it has a member |
| RoomTheorems.OutsiderExit | WindowServer/Source/Services/ExitRoomService.cpp:10-33 | an outsider's exit destroys the room exactly when one row is left |
| RoomTheorems.ExitTaintsExactly | WindowServer/Source/Services/ExitRoomService.cpp:16-31 | from a clean pool, a connection goes back with autocommit off exactly when the count failed |
| RoomRuns.EndedTransaction | WindowServer/Source/Databases/DatabaseWrapper.cpp:62-73 | a call that passes Transaction_End commits everything pending on its connection, or drops it all, and leaves the connection clean |
| RoomRuns.PoolOverRun | WindowServer/Source/Services/EntryRoomService.cpp:12-48 | over every serial run idle connections and empty-password entries add up; without failed counts every idle connection is clean |
| RoomRuns.IdleModeExactly | WindowServer/Source/Services/ExitRoomService.cpp:16-31 | after any run from a clean pool, an idle connection has autocommit off exactly if a count failed on it and it has not passed Transaction_End since |
| RoomRuns.CreateUncommittedExactly | WindowServer/Source/Repositories/ChattingRoomRepository.cpp:28-67 | a create that reports success is uncommitted exactly if the connection it pops is such a one |
| RoomRuns.UncommittedCreateReachable | WindowServer/Source/Repositories/ChattingRoomRepository.cpp:28-67 | from any clean pool, failing counts alone lead to such a create |
| RoomRuns.UncommittedCreate | WindowServer/Source/Repositories/ChattingRoomRepository.cpp:28-67 | the room is then pending on that connection and nowhere else |
| RoomRuns.UncommittedRoomFate | WindowServer/Source/Databases/DatabaseWrapper.cpp:62-73 | it stays uncommitted until a call on that connection passes Transaction_End; a commit makes it visible, unless that call deletes it, and a failed commit drops it |
| RoomRuns.GoneForGood | WindowServer/Source/Databases/DatabaseWrapper.cpp:62-73 | a dropped room never appears again |
| RoomOrder.CallKeepsExactly | WindowServer/Source/Services/ExitRoomService.cpp:10-33 | a call by members who do not enter twice, whatever fails and whatever transactions are open, keeps foreign keys, fresh ids, single rows and occupied rooms, unless the last member leaves and only the deletion of the room fails; then entered rooms are no longer occupied |
| RoomOrder.RoomLifecycle | WindowServer/Source/Services/ExitRoomService.cpp:10-33 | at every point of a run without that failure, counts, statements and commits failing as they may, a room ever entered exists if and only if somebody is in it |
| RoomClients.CallAlone | WindowServer/Source/Services/EntryRoomService.cpp:12-48 | one service call is a run of the connection pool that logs the value returned and leaves the idle connections, in the same order and modes, as the call leaves them |
| RoomClients.ServicesAreRuns | WindowServer/Source/Services/ExitRoomService.cpp:10-33 | every serial run of services from forty clean connections is a run of the connection pool by any one client: same values in the same order, same idle connections, same modes |
| RoomServices.DatabaseWrapper.Transaction_Start | WindowServer/Source/Databases/DatabaseWrapper.cpp:56-59 | autocommit off, the open transaction kept |
| RoomServices.DatabaseWrapper.Transaction_End | WindowServer/Source/Databases/DatabaseWrapper.cpp:62-73 | commit or roll back, autocommit on either way |
| RoomServices.DatabaseWrapper.RollBack | WindowServer/Source/Databases/DatabaseWrapper.cpp:81-84 | the open transaction is dropped |
| RoomServices.DatabaseWrapper.Execute | WindowServer/Source/Databases/DatabaseWrapper.cpp:121-129 | a successful statement is committed at once or joins the open transaction; a failed one changes nothing |
| RoomServices.DatabasePool.Initialization | WindowServer/Source/Pool/DatabasePool.cpp:14-21 | the loop fills the queue with different, clean connections |
| RoomServices.DatabasePool.PopWrapper | WindowServer/Source/Pool/DatabasePool.cpp:27-33 | the oldest connection, removed |
| RoomServices.DatabasePool.PushWrapper | WindowServer/Source/Pool/DatabasePool.cpp:35-45 | the connection is queued last, in the mode it is in |
| RoomServices.RoomService.CountByRoomMember | WindowServer/Source/Repositories/RoomMemberRepository.cpp:85-109 | the number of rows the connection sees, or -1 |
| RoomServices.RoomService.LeaveRoom | WindowServer/Source/Services/ExitRoomService.cpp:18-30 | the statements of an exit and the end of its transaction |
| RoomServices.RoomService.ExitRoom | WindowServer/Source/Services/ExitRoomService.cpp:10-33 | tables, pool and result are those of the call on values |
| RoomServices.RoomService.FindPassword | WindowServer/Source/Repositories/ChattingRoomRepository.cpp:179-213 | the text compared is empty exactly if the fetch failed or there is none, and otherwise the NUL-free password that was stored |
| RoomServices.RoomService.PasswordCompare | WindowServer/Source/Services/EntryRoomService.cpp:10-49 | tables, pool and result are those of the call on values, the lost connection included |
| RoomServices.RoomService.CreateChattingRoom | WindowServer/Source/Repositories/ChattingRoomRepository.cpp:28-67 | tables, pool and result are those of the call on values, which `CreateEffect` describes row by row, and the id is the next one |
| RoomServices.RoomService.InsertMessage | WindowServer/Source/Services/SendMessageService.cpp:9-15 | tables, pool and result are those of the call on values, which `MessageEffect` describes |
| MessageCodec.RoundTrip | WindowServer/Source/Controllers/SendMessageController.cpp:15-35 | walking an encoded history gives the room, the count, the senders and the bodies in order, and ends at PacketLen |
| MessageCodec.EncodeInjective | WindowServer/Source/Controllers/RequireRoomInfoController.cpp:48-77 | equal packets carry the same messages, names included, of the same room |
| MessageCodec.HistoryReadBack | WindowServer/Source/Controllers/RequireRoomInfoController.cpp:48-77 | every field of the head reads back, type and user included, and record i, right behind the records before it, holds the sender, the 256 bytes of the name, the length and the body of message i |
| MessageCodec.WalkInBounds | WindowServer/Source/Controllers/SendMessageController.cpp:21-35 | whatever packet the walk accepts, each message was read inside it, header then body, right after the one before, and the end is the sum of the sizes |
| MessageCodec.ParseExactly | WindowServer/Source/Controllers/SendMessageController.cpp:15-35 | a packet is accepted if and only if it holds a head and as many messages as it announces, one behind the other; these are delivered, to the room in the head |
| MessageCodec.SwapWrites | WindowServer/Source/Controllers/RequireRoomInfoController.cpp:62-63 | a field swapped in place and copied is the field in network order |
| MessageCodec.SwapReads | WindowServer/Source/Controllers/SendMessageController.cpp:16-27 | a field read by the host and swapped is the value in network order |
| MessageCodec.BuildHistory | WindowServer/Source/Controllers/RequireRoomInfoController.cpp:43-80 | the length measured is the length filled, every byte of the buffer is written, the buffer is the encoded history, which `HistoryReadBack` reads, and the headers are left swapped; nothing is sent for an empty one |
| MessageCodec.Fill | WindowServer/Source/Controllers/RequireRoomInfoController.cpp:67-77 | the filling pass ends at the buffer's end and leaves the head and the records |
| MessageCodec.OnSendMessage | WindowServer/Source/Controllers/SendMessageController.cpp:15-35 | the offset loop delivers exactly the messages of the walk |
| MemberCodec.MembersReadBack | WindowServer/Source/Controllers/RequireRoomInfoController.cpp:22-38 | all six fields of the head and every entry of the members packet read back, each entry at its offset, the length exact |
| MemberCodec.MemberIdOrder | WindowServer/Source/Controllers/RequireRoomInfoController.cpp:37 | read in network order, a member id comes back exactly when its four bytes read the same both ways |
| MemberCodec.BuildMembers | WindowServer/Source/Controllers/RequireRoomInfoController.cpp:22-38 | the two copies fill the buffer with the encoded members |

## Left out

Stated more narrowly than the source promises or does:

- SlabSystem.StepKeeps: assumes that the group size divides the region size and the object size the group size, with groups and objects multiples of 16; `SlabOverlap.OverlapExactly` says exactly what fails otherwise.
- SlabOverlap.OverlapExactly: assumes groups and objects multiples of 16, groups that fill regions, and an address space that holds two regions.
- SlabStray.StrayExactly: the same.
- SlabPools.ObjectPool.AllocateObject: one caller at a time and the sizes of `SlabSystem.StepKeeps`; other threads are in `SlabSystem`. The slicing loop is the separate method `PushSlices`.
- PoolingManagers.PoolingManager.GenerateObject: one caller at a time, so `call_once` is the null test it guards; sizes as above, while making the pools covers all sizes.
- PoolingManagers.PoolingManager.FreeObject: the same.
- SlabDepth.NeedlessGrowth: sizes as for `SlabSystem.StepKeeps`, and an address space that holds one region per object.
- SlabTheorems.NoDeadlock: assumes that the system can grant memory; the source exits otherwise.
- SlabProgress.EveryCallerServed: sizes as for `SlabSystem.StepKeeps`; nobody frees meanwhile, and at the end memory can be granted.
- ThreadPoolTheorems.CounterExact: capacity and thread count together below the word size; without that the counter is exact modulo the word (`ThreadPoolSystem.Tally`).
- ThreadPools.ThreadPool.ThreadProc: runs up to the first wait that would block, where the source waits for ever, and without interference; all interleavings are in `ThreadPoolSystem`.
- ThreadPools.ThreadPool.WaitForAllThreas: polls for as many turns as the caller gives, since the source's loop need not end; what the other threads do in each turn is a parameter.
- ThreadPools.ThreadPool.EndThreadPool: the same, and submissions are over.
- RoomClients.ServicesAreRuns: calls one after the other; what concurrent clients do to the queue and the modes is in `ConnectionPool`.
- ThreadPoolTheorems.EverythingRuns: assumes that callbacks return; a callback that throws or never returns is not modelled.
- ConnectionPool.StepKeeps: commit and return of an entry that keeps its connection are one step; the tables are left to `RoomSpec`.
- RoomOrder.RoomLifecycle: serial calls, by members who do not enter twice (`WindowServer/Source/Controllers/EntryRoomController.cpp:20-23` checks a group, not the table); single calls have no such limit.
- RoomServices.RoomService.CreateChattingRoom: a name or password whose text fills the buffer is excluded, as strcpy_s ends the process.
- RoomServices.RoomService.PasswordCompare: the two statements its successful branches share are one method, as are the statements of ExitRoom.
- MessageCodec.OnSendMessage: says malformed where the source reads past the packet or sizes a buffer with a negative number; the broadcast after the loop is not modelled.
- MessageCodec.BuildHistory: sizes of 2^31 and more, where the source's INT32 total overflows, are excluded.
- MemberCodec.BuildMembers: the same bound.

Not modelled:

- the Windows primitives themselves: list pop and push, mutex, semaphore, event and depth query are atomic steps with their documented contracts; IsFinish is read and written in one order seen by all threads.
- constructors and destructors of packets placed in a slot: they are writes by the slot's owner.
- `AllocateObjects`, a loop of AllocateObject, and `~MemoryPool`, which frees the regions.
- static destruction order, exceptions, and paths that end the process.
- the thread pool's mutex being created after its threads start, and WorkingEvent, which nobody waits for.
- the SQL engine: statements are relational operations that succeed or fail, foreign keys drop or cascade rows, and transactions run one at a time; isolation between open transactions is not modelled.
- code-page conversion beyond the cut at the first NUL; collations.
- `FindAllMessage`, `FindAllRoomMember` and the user look-ups: the codecs take their results as input.
- sockets, UDP, login, join, logout, room lists and the start-up of managers.
