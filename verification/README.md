# Verification of xv6 with a multi-level feedback queue

Dafny models of the parts of this kernel and its user programs that hide a simple object behind
loops, shared state and interleavings, with proofs that the object is what the code implements.
`dafny verify dfyconfig.toml` checks everything.

Where the C code updates state in place the model is a class or a loop with the same branches and
constants; a value-level module beside it says what the operation means and proves what holds of all
inputs, states or runs. Where the code panics, a method returns `ok == false` or an equivalent result.

- **Log** (`LogProtocol`, `LogRuns`, `Log`): the redo log as steps of one block write each. Any run with
  crashes anywhere, in recovery too, recovers to a whole number of committed groups (`CrashAtomicity`).
  The code records its steps, so these theorems hold between any two of its writes. No size of the log area
  keeps writes within their reservations from the panic in `log_write`: in one of at most LOGSIZE blocks, as
  mkfs makes it, a new block can meet it; in a larger one, a block already in a full log.
- **Files** (`Ownership`, `FsState`, `DiskSpace`, `FileSystem`, `FileWrite`, `FsRuns`): inodes, indirect blocks
  and the bitmap refine a set of byte sequences over all runs; a bitmap bit is set exactly when one slot holds the
  block, and a write fails exactly when it lacks more blocks than are clear.
- **Files over the log** (`DiskImage`, `Transactions`): system calls whose operations share the log's groups.
  Stop anywhere, recover, and the disk has the files after a whole number of operations (`CrashSafe`).
- **Directories and paths** (`Directory`, `Namei`): on top of the same readi and writei, a directory is a
  finite map and a path lookup is the fold of its lookups.
- **Buffer cache** (`BufferRing`, `BufferCache`, `Bio`): the cache refines a plain array of blocks, and its
  linked ring is least recently released first out. Over it, the log keeps a dirty buffer for exactly the
  blocks it has logged (`LogCache`). A commit finds a buffer for its copies exactly when the header is not full
  (`CommitBuffers`), so a log area that takes every new block can starve the commit.
- **Scheduler** (`Mlfq`, `MlfqTurns`, `MlfqWaiting`, `Scheduler`): no process is lost or queued twice over any
  run, levels follow run ticks modulo 59, and the wait for a turn is an exact, tight number of ticks.
  `allocproc` keeps this, and stays inside its array, if and only if the slot it takes has no stale pid or
  queue entry.
- **Process life** (`ProcLife`, `ProcRuns`, `ProcTable`): no exit notice is lost in any interleaving, no pid is
  shared, a fork publishes the child it started, and sleepers wake exactly for the steps meant for them.
- **Pipes** (`PipeProtocol`, `Pipes`): a queue under counter wrap-around; the one step that can strand a
  sleeping reader is characterised exactly.
- **Memory** (`PageTables`, `PageMoves`, `Growth`, `Paging`): every frame has exactly one owner; each operation is
  stated by the mappings it changes and the owners it moves, and fails exactly when too few frames are free.
- **Allocator** (`FreeList`, `Umalloc`): the address-ordered ring of section 8.7 of The C Programming
  Language, 2nd edition, over all runs; no operation changes what its users have stored.
- **Shell parser** (`ShellSyntax`, `ShellLex`, `ShellNodes`, `Shell`): recognises exactly its grammar, undoes
  printing, and ends every word with a NUL that hurts no other word.
- **grep** (`Grep`): the matcher of chapter 9 of The Practice of Programming against its pattern language.

Inputs that the code gets from elsewhere are parameters: what happens while a process runs and the state it
returns in, whether sbrk succeeds, which step comes next, when the machine crashes, the bytes of a line or path.

## Model

| member | source | states |
|---|---|---|
| FreeList.InsertIsFreeList | xv6-public/umalloc.c:33-42 | a block put back between its neighbours, joined with those it touches, leaves the list in address order with no two blocks touching |
| FreeList.InsertUnits | xv6-public/umalloc.c:33-42 | the units of the list afterwards are exactly the old ones and the block's |
| FreeList.CarveIsFreeList | xv6-public/umalloc.c:75-82 | cutting a request from a block's tail, or taking the whole block, keeps the list in order with no two blocks touching |
| FreeList.CarveUnits | xv6-public/umalloc.c:75-82 | the cut splits the units exactly: none is lost and none is in both parts |
| Umalloc.NunitsCovers | xv6-public/umalloc.c:69 | the rounded size covers the request, by less than one unit more, exactly when the 32-bit rounding does not wrap around |
| Umalloc.SbrkFitsIff | xv6-public/umalloc.c:46-61 | morecore asks sbrk for what it needs exactly for requests of at most 2^31 - 16 bytes or so large that the rounding wraps; otherwise the argument of sbrk is 0 or negative |
| Umalloc.FindGap | xv6-public/umalloc.c:30-32 | a block apart from all free blocks fits after one of them and after no other, so the ring walk of free has one place to stop |
| Umalloc.SplicedLinked | xv6-public/umalloc.c:33-42 | the header stores of free turn the ring of the old list into the ring of the list with the block inserted |
| Umalloc.Freed | xv6-public/umalloc.c:24-44 | the whole effect of free: list in order, headers linked, other allocations intact and apart, every unit accounted for |
| Umalloc.CutLive | xv6-public/umalloc.c:75-84 | the allocation handed out is new, and all allocations stay intact and disjoint from each other and from the free list |
| Umalloc.CutAccounted | xv6-public/umalloc.c:75-84 | every unit ever obtained is still free or live, never both, never neither |
| Umalloc.SplicedKept | xv6-public/umalloc.c:33-42 | the header stores of free change nothing inside any other allocation |
| Umalloc.CutKept | xv6-public/umalloc.c:75-84 | the header stores of malloc change nothing inside any allocation |
| Umalloc.Advance | xv6-public/umalloc.c:74-86 | the search passes each block once; back at its start, every block was too small |
| Umalloc.Obtained | xv6-public/umalloc.c:46-61 | a region granted by sbrk is one more allocation apart from everything, ready to be freed |
| Umalloc.Heap.FindPlace | xv6-public/umalloc.c:30-32 | the ring walk of free terminates, at the block after which the freed one belongs |
| Umalloc.Heap.Splice | xv6-public/umalloc.c:33-42 | the joins with the lower and the upper neighbour store exactly the headers of the merged ring |
| Umalloc.Heap.Free | xv6-public/umalloc.c:24-44 | exactly one allocation becomes free, inserted at its place; nothing else changes hands |
| Umalloc.Heap.Morecore | xv6-public/umalloc.c:46-61 | one call of sbrk; either nothing changes, or exactly the granted units, at least 4096, are gained and the list holds a block large enough; stored data stays |
| Umalloc.Heap.Take | xv6-public/umalloc.c:75-84 | the block found yields a new allocation of the requested size and shrinks by it |
| Umalloc.Heap.Malloc | xv6-public/umalloc.c:63-90 | if some free block fits, a new allocation of the rounded size without a call of sbrk, cut from the tail of the first block that fits in ring order after freep, and freep moves to the block before it; otherwise one call, and 0 exactly when sbrk granted nothing; all stored data stays; the search terminates |
| Umalloc.Heap.Run | xv6-public/umalloc.c:24-90 | over every run of mallocs, stores anywhere into held allocations and frees of held pointers: the heap stays well formed and free units are all units sbrk has granted minus the live ones |
| LogProtocol.HeadRoundTrip | xv6-public/log.c:85-113 | the header block written for a list of block numbers reads back as that list |
| LogProtocol.BeginOpKeeps | xv6-public/log.c:125-141 | reserving room for one more system call keeps the invariant of the log |
| LogProtocol.LogWriteKeeps | xv6-public/log.c:213-233 | recording a write, absorbed or new, within a reservation or beyond it, keeps the invariant |
| LogProtocol.EndOpKeeps | xv6-public/log.c:145-174 | ending a system call, and starting the commit when it is the last, keeps the invariant |
| LogProtocol.WriteLogKeeps | xv6-public/log.c:177-190 | copying one block to the log keeps the invariant |
| LogProtocol.WriteHeadKeeps | xv6-public/log.c:101-113 | the one write of the header makes the whole group durable |
| LogProtocol.InstallKeeps | xv6-public/log.c:69-82 | copying one block home, in commit or in recovery, keeps the invariant |
| LogProtocol.EraseKeeps | xv6-public/log.c:198-201 | clearing the header once all blocks are home loses nothing |
| LogProtocol.StepKeeps | xv6-public/log.c:69-233 | every step, a crash included, keeps the invariant |
| LogProtocol.TooBigIff | xv6-public/log.c:218-219 | the panic test of log_write holds exactly at the largest number of entries the header or the log area takes |
| LogRuns.HistoryIsGroups | xv6-public/log.c:177-202 | the groups on record are those the system calls made, and a group whose commit returned is never lost |
| LogRuns.RecoveredHome | xv6-public/log.c:69-122 | a recovery that comes to its end, however often interrupted, leaves each home block with its value after the groups committed before |
| LogRuns.CrashAtomicity | xv6-public/log.c:69-122 | after any run with crashes between any two block writes, recovery's own included, completed recovery leaves the home blocks at the state after a whole number of committed groups |
| LogRuns.RecoveryFinishes | xv6-public/log.c:115-122 | recovery left alone ends with an empty log, from every reachable crash |
| LogRuns.ReadsLatest | xv6-public/log.c:213-233 | between crashes a read sees the latest write, committed or not |
| LogRuns.ReservationBound | xv6-public/log.c:125-174 | in every run within reservations, logged blocks plus unused reservations fit LOGSIZE; in every run, a commit runs with no system call outstanding |
| LogRuns.PanicIffFull | xv6-public/log.c:213-233 | in a log area larger than LOGSIZE, a write within its reservation panics exactly when the log has LOGSIZE entries; then all reservations are used up and its block is already in the log |
| LogRuns.EveryLogPanics | xv6-public/log.c:218-229 | for every size of the log area a run within reservations ends in front of a write within its reservation that panics; the block is already in the log exactly when the area is larger than LOGSIZE |
| LogRuns.NewBlocksSafeIff | xv6-public/mkfs.c:25 | blocks new to the log never panic within reservations if and only if the log area has more than LOGSIZE blocks, which mkfs does not provide |
| Log.Device.BeginOp | xv6-public/log.c:125-141 | starts exactly when the reservation fits, and counts the call; takes the protocol's step |
| Log.Device.LogWrite | xv6-public/log.c:213-233 | the block is pinned with its new contents and in the list exactly once; fails exactly when the transaction is too big or no system call is outstanding; takes the protocol's step |
| Log.Device.WriteHead | xv6-public/log.c:101-113 | the header block on disk holds the in-memory list |
| Log.Device.ReadHead | xv6-public/log.c:85-96 | the in-memory list is the one on disk |
| Log.Device.WriteLog | xv6-public/log.c:177-190 | the loop takes one protocol step for each block and ends ready to commit |
| Log.Device.InstallTrans | xv6-public/log.c:69-82 | the loop takes one protocol step for each block and ends with all of them home |
| Log.Device.Commit | xv6-public/log.c:192-202 | the pending writes become one group, all home blocks hold it, nothing stays pinned |
| Log.Device.RecoverFromLog | xv6-public/log.c:115-122 | home blocks hold exactly the groups committed before the crash |
| Log.Device.EndOp | xv6-public/log.c:145-174 | the last system call out commits the group; an earlier one only leaves |
| Mlfq.SelectKeepsEveryone | xv6-public/proc.c:499-526 | the swap in returnProc keeps every queue's members |
| Mlfq.SelectPicksHighest | xv6-public/proc.c:391-427 | the process chosen is RUNNABLE, from the highest level that has one; nobody is chosen exactly when nobody queued is RUNNABLE |
| Mlfq.SelectChosen | xv6-public/proc.c:499-526 | the choice is the first RUNNABLE entry of the highest queue that has one and changes places with the entry in front; no other entry, queue or field changes; if nobody is chosen, nobody queued is RUNNABLE |
| Mlfq.RelocateMoves | xv6-public/proc.c:430-461 | taking a process out of one queue and adding it to another keeps the order of the others, puts it last and clears its ticks |
| Mlfq.SelectTwice | xv6-public/proc.c:499-526 | a second call of returnProc returns the same process and changes nothing |
| Mlfq.RelocateKeeps | xv6-public/proc.c:463-476 | degrade and boost keep everybody in exactly one queue, with the priority of that queue and ticks cleared for the one moved |
| Mlfq.HappenKeeps | xv6-public/proc.c:114-133 | forks, wakeups, sleeps, exits and reaps during a slice keep everybody in exactly one queue |
| Mlfq.CleanupLosesProcesses | xv6-public/proc.c:116-126 | allocproc's clean-up of a slot with a stale pid drops processes that have nothing to do with it: two if the slot is queued in level 0, three if it is not |
| Mlfq.AllocKeepsIff | xv6-public/proc.c:114-133 | allocproc stores inside level 0's array and keeps each process queued exactly once if and only if its slot has no stale pid and no stale queue entry |
| Mlfq.ReapedSlotStaysQueued | xv6-public/proc.c:358-371 | a reaped process leaves its queue entry behind, so reusing its slot queues it twice |
| MlfqTurns.RequeueKeeps | xv6-public/proc.c:661-682 | the end of a slice moves the process where its state, level and ticks say and keeps everybody queued once |
| MlfqTurns.RequeueMoves | xv6-public/proc.c:661-682 | where each kind of slice end leaves the three queues, entry by entry, and the ticks |
| MlfqTurns.RunTicksEnd | xv6-public/proc.c:575-648 | a slice ends in the state its last tick came back in; every tick before came back RUNNABLE, and the slice is shorter than its level allows only if that state is not RUNNABLE |
| MlfqTurns.TurnKeeps | xv6-public/proc.c:560-683 | a turn neither loses nor duplicates a process, whatever happens during it |
| MlfqTurns.QueueConservation | xv6-public/proc.c:430-683 | over every run, each allocated process is in exactly one queue, the one its priority names, and the queues hold who was there plus who was forked |
| MlfqTurns.TurnSelf | xv6-public/proc.c:575-683 | a process that stays RUNNABLE uses its whole slice of 1, 2 or 8 ticks and moves one level down, or up once it has 50 ticks in level 2 |
| MlfqTurns.TurnOther | xv6-public/proc.c:575-683 | a turn leaves level and ticks of every other process alone |
| MlfqTurns.LevelCycle | xv6-public/proc.c:575-683 | over every run, the level of a process that always comes back RUNNABLE is fixed by its run ticks modulo 59: 1 in level 0, 2 in level 1, 56 in level 2 |
| MlfqWaiting.WaitStep | xv6-public/proc.c:560-683 | in a closed set of ready processes, every tick run by another brings a process exactly that much closer to its turn |
| MlfqWaiting.BoundedWaiting | xv6-public/proc.c:560-683 | from any state, exactly `Wait` ticks pass before a process is chosen, at most 59 for each of the others |
| MlfqWaiting.WaitIsTight | xv6-public/proc.c:560-683 | the bound is met by the last process of a full level 2 |
| Scheduler.PQueue.DeleteQueue | xv6-public/proc.c:443-460 | the first entry of the process goes and the rest move up; an absent process costs the last entry; from an empty queue, `end` goes below zero and no entry changes |
| Scheduler.PQueue.SwapWithFirst | xv6-public/proc.c:499-526 | the chosen process and the first entry change places |
| Scheduler.Table.constructor | xv6-public/proc.c:173-188 | three empty queues with priorities 0, 1, 2 and slices of 1, 2 and 8 ticks |
| Scheduler.Table.AddQueue | xv6-public/proc.c:430-440 | the process goes to the end, with the queue's priority and no ticks |
| Scheduler.Table.Degrade | xv6-public/proc.c:463-476 | the process moves to the end of the next lower level; from level 2 it does not move |
| Scheduler.Table.Boost | xv6-public/proc.c:529-535 | the process moves from level 2 to the end of level 0 |
| Scheduler.Table.Cleanup | xv6-public/proc.c:116-126 | the three deletions from level 0, counted even where they take `end` below zero |
| Scheduler.Table.ReturnQueue | xv6-public/proc.c:391-427 | the highest level with a RUNNABLE process, or level 0 when there is none |
| Scheduler.Table.ReturnProc | xv6-public/proc.c:499-526 | the first RUNNABLE entry of the highest queue that has one changes places with the entry in front, and nothing else changes; nobody, and no change, exactly when nobody queued is RUNNABLE |
| Scheduler.Table.AllocProc | xv6-public/proc.c:114-133 | refines the value-level allocation, clean-up included; the slot is EMBRYO at level 0 with the next pid; where addQueue would store outside the array, which is characterised exactly, `end` says where |
| Scheduler.Table.RunSlice | xv6-public/proc.c:575-648 | the process runs tick after tick while it comes back RUNNABLE, at most as many as its queue allows; its ticks count them, and it is left in the state the last one ended in |
| Scheduler.Table.EndSlice | xv6-public/proc.c:661-682 | a process back SLEEPING ends behind everybody in its own queue, one that used up its slice behind everybody one level down, one at the bottom with 50 ticks behind everybody at the top, in each case with its ticks cleared, the others in their order and the remaining queues unchanged; in every other case nothing changes |
| Scheduler.Table.Dispatch | xv6-public/proc.c:566-682 | refines one turn |
| Scheduler.Table.Pass | xv6-public/proc.c:560-683 | a pass over the table is a sequence of turns; one that starts with a queued RUNNABLE process dispatches at least one |
| Ownership.BitAfter | xv6-public/fs.c:64-70 | setting or clearing the bit of one block changes the bit of no other |
| Ownership.ClaimOwned | xv6-public/fs.c:56-78 | a block whose bit is clear is held by nobody, and taking it into an empty slot keeps bits and holders in step |
| Ownership.ReleaseOwned | xv6-public/fs.c:81-96 | the block of a slot has its bit set, so bfree cannot panic, and giving it back keeps bits and holders in step |
| Ownership.EmptiedBits | xv6-public/fs.c:408-436 | emptying an inode clears exactly the bits of the blocks it held |
| FsState.WordAfterPut | xv6-public/fs.c:391-394 | one entry of an indirect block is stored and the others read as before |
| FsState.ClaimOk | xv6-public/fs.c:373-401 | taking a free block into an empty address or indirect entry keeps every block held at most once and the bitmap exact |
| FsState.ClaimBytes | xv6-public/fs.c:373-401 | and leaves the bytes of all mapped file blocks alone |
| FsState.WriteBytes | xv6-public/fs.c:498-503 | rewriting a block of a file changes that file's bytes in that block and nothing else |
| FsState.WritingDone | xv6-public/fs.c:482-512 | after the copy loop and the new size, the contents are the old ones with the source laid over, and other files are untouched |
| FileSystem.Device.Balloc | xv6-public/fs.c:56-78 | the lowest free block, zeroed and marked; fails exactly when no bit is clear |
| DiskSpace.DrewClaim | xv6-public/fs.c:56-78 | a block taken into an empty slot is one clear bit less and one lacking slot less |
| DiskSpace.DrewAll | xv6-public/fs.c:373-401 | mapping that came to its end had as many clear bits as slots it lacked, the indirect block's included; mapping that stopped for want of a block had fewer |
| FileSystem.Device.Bmap | xv6-public/fs.c:373-401 | the address of a file block, allocated with its indirect block where missing; nothing changes when it was there; blocks are taken only for empty slots it needs, and it fails only on a full disk with the block still missing |
| FileSystem.Device.Readi | xv6-public/fs.c:453-477 | exactly the bytes from the offset up to the count or the end; nothing is changed; -1 on the same arguments as the code |
| FileSystem.Device.Writei | xv6-public/fs.c:482-512 | the source laid over the contents, across block edges and the direct-indirect split; every other file the same; -1 exactly on the code's checks; panics exactly when fewer bits are clear than blocks the write lacks; every block, bitmap byte and inode that changes is passed to log_write |
| FileSystem.Device.Bfree | xv6-public/fs.c:81-96 | clears one bit; fails exactly when it was clear |
| FileSystem.Device.Itrunc | xv6-public/fs.c:408-436 | the inode holds nothing, exactly its blocks become free, the free-block panic is not reached, other files are untouched; only the bitmap and the inode are logged, and all that changes is |
| FsRuns.Step | xv6-public/fs.c:373-512 | one read, write or truncation: the plain model's files and answer, or a panic exactly when a write lacks more blocks than are left |
| FsRuns.Run | xv6-public/fs.c:373-512 | every sequence of reads, writes and truncations ends with the files of the plain model of byte sequences, unless the disk fills up; each call that returned gave the count, -1 or bytes the plain model gives |
| FileWrite.LogBudget | xv6-public/file.c:124-132 | with one bitmap block, a write of n file blocks logs at most n + 3 blocks |
| FileWrite.ChunkBlocks | xv6-public/file.c:133-138 | a chunk covers at most four file blocks, however it is aligned |
| FileWrite.WriteOne | xv6-public/file.c:136-145 | one transaction stays below MAXOPBLOCKS blocks and lays its chunk over the file, other files standing; -1 and no change exactly past the file's end or beyond the largest file; panics exactly when it lacks more blocks than are left |
| FileWrite.Filewrite | xv6-public/file.c:118-156 | lays down all bytes when they fit the largest file, otherwise exactly the whole chunks that do, and returns the count or -1; other files stand; over all chunks, panics exactly when they lack more blocks than are left at the start |
| DiskImage.Unlogged | xv6-public/fs.c:222-237 | a disk block that an operation did not log looks as before |
| DiskImage.ImageDetermines | xv6-public/fs.h:28-48 | the blocks outside the log determine the bitmap, the inodes and the data |
| Transactions.FewBlocks | xv6-public/file.c:124-143 | a write of one chunk, a read or a truncation logs at most MAXOPBLOCKS blocks |
| Transactions.LoggedHome | xv6-public/fs.c:373-512 | no operation logs a block of the log area |
| Transactions.ShowsNext | xv6-public/log.c:192-202 | the group of the blocks logged between two states, applied to a disk that holds the first, gives a disk that holds the second |
| Transactions.CrashSafe | xv6-public/log.c:115-174 | with any number of system calls sharing groups, stop after any number of the log's block writes and recover, interrupted or not: the disk holds the files after a whole number of operations, those of all groups whose commit had ended and at most of the one being committed |
| Transactions.DiskHasFiles | xv6-public/fs.c:373-477 | every well-formed reading of such a disk has those files |
| Transactions.HalfwayDone | xv6-public/log.c:213-233 | once an operation has logged what it changed, every block of the group, logged by whichever call, has the contents of the new state |
| Transactions.ServingCommitted | xv6-public/log.c:145-202 | the last end_op makes the group a point to which recovery can return, with all operations done so far |
| Transactions.Server.Begin | xv6-public/log.c:125-141 | another system call joins, exactly when its reservation fits, and nothing else changes |
| Transactions.Server.LogAll | xv6-public/log.c:213-233 | each block the operation changed goes into the log with its new contents; it panics only on a full log, and not with room for all of them |
| Transactions.Server.Do | xv6-public/file.c:139-145 | an operation of one of the calls in progress: the caller gets the plain model's answer; on a panic, for want of blocks or of log room, nothing since the last commit has reached the disk |
| Transactions.Server.End | xv6-public/log.c:145-174 | a call ends; the last one to end commits the operations of all calls as one group |
| Transactions.Server.Transact | xv6-public/file.c:139-145 | a system call alone: the plain model's answer and a commit, or a panic exactly when the disk has too few blocks, with none of the operation on the disk |
| Directory.Namecmp | xv6-public/fs.c:517-521 | equal exactly when the names agree up to their NUL or DIRSIZ bytes |
| Directory.Strncpy | xv6-public/string.c:68-79 | strncpy into an entry: the field holds the same name, cut to DIRSIZ bytes and padded |
| Directory.LinkInserts | xv6-public/fs.c:552-580 | storing an absent name in a free or new slot adds that one binding to the directory's map, keeps all others and makes no duplicate |
| Namei.JoinThenSplit | xv6-public/fs.c:584-621 | a path spelled from elements with any number of slashes has exactly those elements as its components |
| Namei.Skipelem | xv6-public/fs.c:596-621 | the next component cut to DIRSIZ bytes, and a rest whose components are the remaining ones; fails exactly when none is left |
| Namei.Dirlookup | xv6-public/fs.c:525-549 | the inode number the directory's map gives the name and the offset of its entry, 0 exactly when it has none; nothing changes |
| Namei.Dirlink | xv6-public/fs.c:552-580 | -1 exactly when the name is bound; otherwise the map gains that binding and no other file changes; panics exactly when the entry has no room in the largest file or needs a block and none is left |
| Namei.Namex | xv6-public/fs.c:625-658 | finds an inode if and only if a chain of inodes starts at the root or the current directory, each a directory that binds the next component, cut to DIRSIZ, to the next inode, and ends there; fails if and only if there is no such chain; for nameiparent the chain is one component shorter and ends at a directory, and the last component is returned |
| Namei.ResolveLeads | xv6-public/fs.c:635-653 | the component-by-component lookup reaches an inode exactly if a chain of directories leads to it |
| Namei.ParentLeads | xv6-public/fs.c:640-645 | the lookup for the parent stops exactly at the directory to which all components but the last lead |
| Namei.ResolveInParent | xv6-public/fs.c:660-671 | looking up the last component in what nameiparent finds gives what namei finds |
| BufferRing.PushedRing | xv6-public/bio.c:48-55 | linking a buffer in at the head keeps the two-way ring |
| BufferRing.RelinkedRing | xv6-public/bio.c:130-137 | brelse's six stores turn the ring into the one with the buffer moved to the front |
| BufferRing.ToFrontAged | xv6-public/bio.c:130-137 | the ring stays sorted by time of release |
| BufferCache.Recycle | xv6-public/bio.c:82-91 | giving an idle buffer to a block that is not cached keeps each block in one buffer and changes the contents of no block |
| BufferCache.HeldKeeps | xv6-public/bio.c:109-116 | what a holder stores or writes changes the contents of its own block only |
| Bio.Cache.constructor | xv6-public/bio.c:38-56 | a ring of all NBUF buffers in which every block reads as on disk |
| Bio.Cache.Find | xv6-public/bio.c:69-76 | the buffer that holds the block, or none exactly when no buffer does |
| Bio.Cache.Victim | xv6-public/bio.c:81-91 | the least recently released buffer that is neither referenced nor dirty, or none exactly when there is none |
| Bio.Cache.Bget | xv6-public/bio.c:61-93 | one more reference to the block's only buffer, recycling the least recently released idle one if needed; panics exactly when there is none; no block's contents change |
| Bio.Cache.Bread | xv6-public/bio.c:96-106 | the buffer holds what the block's last holder left; no block's contents change |
| Bio.Cache.Bwrite | xv6-public/bio.c:109-116 | the block on disk is the buffer's data; no other block changes |
| Bio.Cache.Brelse | xv6-public/bio.c:120-141 | one reference less; the last one out puts the buffer in front as the latest released; no block's contents change |
| Bio.Cache.Iderw | xv6-public/ide.c:137-168 | a dirty buffer goes to disk, an invalid one is read; panics exactly when there is nothing to do |
| Bio.Cache.Pin | xv6-public/log.c:231 | a pinned buffer keeps its block's contents and is not idle |
| CommitBuffers.IdleIffRoom | xv6-public/bio.c:81-91 | a buffer can be recycled exactly when the pinned and the held ones are not all |
| CommitBuffers.PinnedCount | xv6-public/log.c:225-231 | as many buffers are pinned during a commit as the header has entries |
| CommitBuffers.CommitBread | xv6-public/log.c:177-190 | the commit's bread of a log block that is not cached finds a buffer exactly when pinned and held ones are fewer than NBUF; with none held, exactly when the header has fewer than LOGSIZE entries |
| CommitBuffers.FullCommit | xv6-public/log.c:125-174 | three system calls within their reservations reach a commit of LOGSIZE entries if the log area has room |
| CommitBuffers.CommitRoomIff | xv6-public/param.h:10-12 | every commit starts with fewer entries than buffers if and only if the log area has at most LOGSIZE blocks; these are exactly the areas in which a new block can panic log_write |
| LogCache.CopyBlock | xv6-public/log.c:69-82 | the loop bodies of write_log and install_trans: one block is written through with the other's contents, no other block changes, and only that block may lose its pin |
| LogCache.SamePins | xv6-public/log.c:231 | while cache and log are in step, the dirty buffers are exactly those of the blocks logged |
| LogCache.SameBoot | xv6-public/bio.c:38-56 | an empty cache is in step with the log at boot |
| LogCache.Logger.LogWrite | xv6-public/log.c:213-233 | storing into a buffer and pinning it is the protocol's step; cache and log stay in step |
| LogCache.Logger.WriteLogBlock | xv6-public/log.c:177-190 | takes the protocol's step with cache and log in step; panics exactly when bget has no buffer for the log block, and with no buffer held exactly when the header is full |
| LogCache.Logger.InstallBlock | xv6-public/log.c:69-82 | takes the protocol's step with cache and log in step; in a commit, panics exactly when bget has no buffer for the log block |
| LogCache.Logger.WriteHead | xv6-public/log.c:101-113 | takes the protocol's step, commit or erase, with cache and log in step; panics exactly for want of a buffer |
| ProcLife.ExitNotified | xv6-public/proc.c:294-338 | exit leaves no process asleep in wait with a zombie child, its own parent and init included |
| ProcLife.StepKeeps | xv6-public/proc.c:246-385 | every locked region, and every unlocked store of fork, keeps the invariant |
| ProcLife.NoLostExit | xv6-public/proc.c:246-385 | in every interleaving of fork, exit, wait, kill, sleep and wakeup, no process asleep in wait has a zombie child, and every process but init has a living parent |
| ProcRuns.PidsDistinct | xv6-public/proc.c:130 | in every interleaving, slots in use have pairwise different pids below the next one |
| ProcRuns.ForkMakesChild | xv6-public/proc.c:246-290 | under every interleaving of other steps with fork's own, the child published is RUNNABLE, has the caller as parent and the pid taken when its slot was claimed |
| ProcRuns.FailedForkLeavesPid | xv6-public/proc.c:257-262 | a fork that gives up, under every interleaving, leaves its slot UNUSED with the pid still in it |
| ProcRuns.SleepsUntilWoken | xv6-public/proc.c:745-826 | in every interleaving a sleeper stays asleep on its channel until a wakeup of that channel, a kill, or an exit that notifies it, and is RUNNABLE right after that |
| ProcRuns.LifeCycle | xv6-public/proc.c:99-826 | in every state a slot has its own ways out, and each is taken exactly by the step meant for it: claimed, published or given up, run, yielding, going to sleep, woken, exiting, reaped |
| ProcRuns.ChannelsAreLeft | xv6-public/proc.c:745-783 | in every interleaving only a sleeper, or one woken that has not run since, is on a channel |
| ProcTable.Table.Wakeup1 | xv6-public/proc.c:786-794 | exactly the sleepers on the channel become RUNNABLE |
| ProcTable.Table.Wakeup | xv6-public/proc.c:797-802 | exactly the sleepers on the channel become RUNNABLE; takes the protocol's step |
| ProcTable.Table.AbandonChildren | xv6-public/proc.c:323-332 | all children go to init, which is woken exactly when one of them is a zombie |
| ProcTable.Table.Exit | xv6-public/proc.c:294-338 | the caller is a ZOMBIE, its children are init's, and exactly the sleepers on its parent, and on init if it leaves a zombie child, become RUNNABLE; takes the protocol's step |
| ProcTable.Table.Wait | xv6-public/proc.c:342-385 | reaps the first zombie child, whose slot alone is freed, returns -1 with no children or when killed, and otherwise sleeps on the caller's own address |
| ProcTable.Table.Kill | xv6-public/proc.c:807-826 | the first slot with that pid is marked killed, and is RUNNABLE if it was SLEEPING; no other slot or field changes; no two slots share a pid other than 0; -1 exactly when there is none |
| ProcTable.Table.AllocProc | xv6-public/proc.c:99-135 | the first UNUSED slot becomes EMBRYO with the next pid, which no slot had; -1 exactly when there is none |
| PipeProtocol.FifoFacts | xv6-public/pipe.c:85-97 | the wrapped counters tell full from empty and measure the bytes in between |
| PipeProtocol.PushAllKeeps | xv6-public/pipe.c:84-95 | the copy loop accepts as many bytes as there is room for, in order |
| PipeProtocol.StepKeeps | xv6-public/pipe.c:59-121 | every step keeps the ring a queue and sleeping writers in front of a full pipe |
| PipeProtocol.WriterWakesIff | xv6-public/pipe.c:59-121 | a sleeping writer wakes if and only if somebody reads, the read end is closed or it is killed |
| PipeProtocol.ReaderWakesIff | xv6-public/pipe.c:59-121 | a sleeping reader wakes if and only if a writer gets all its bytes in or goes to sleep itself, the write end is closed or it is killed |
| PipeProtocol.ReadersOkIff | xv6-public/pipe.c:86-89 | a step breaks the promise to sleeping readers if and only if it is a killed writer that returns early after filling the pipe |
| PipeProtocol.ReaderStranded | xv6-public/pipe.c:86-89 | from every empty open pipe with nobody asleep, two steps leave a reader asleep in front of a full pipe |
| PipeProtocol.PipeIsFifo | xv6-public/pipe.c:59-121 | in every run bytes read are a prefix of bytes accepted, the counter difference modulo 2^32 is their distance and at most PIPESIZE, and a sleeping writer means a full pipe with its read end open |
| PipeProtocol.ReadersAreNeeded | xv6-public/pipe.c:59-121 | in every run without such a step, a sleeping reader means an empty pipe with its write end open |
| Pipes.Channel.constructor | xv6-public/pipe.c:22-57 | an empty pipe with both ends open |
| Pipes.Channel.PipeWrite | xv6-public/pipe.c:78-98 | puts in as many bytes as there is room for; returns the count exactly when that is all, fails exactly when it is not and the read end is closed or the caller killed, and otherwise sleeps with the rest; readers are woken unless it fails; takes the protocol's step |
| Pipes.Channel.PipeRead | xv6-public/pipe.c:100-121 | returns the next bytes of the queue and wakes all writers; fails, changing nothing, exactly when killed in front of an empty pipe with its write end open; sleeps there otherwise; takes the protocol's step |
| Pipes.Channel.PipeClose | xv6-public/pipe.c:59-75 | closes that end only and wakes all sleepers at the other; takes the protocol's step |
| Grep.FirstPiece | xv6-public/grep.c:85-96 | a string is in the language of a pattern exactly when a prefix fits the first item and the rest the other items |
| Grep.Match | xv6-public/grep.c:72-82 | true exactly when some stretch of the text, or its start after a caret, is in the pattern's language, up to the end after a final dollar |
| Grep.MatchHere | xv6-public/grep.c:85-96 | true exactly when a prefix of the text matches |
| Grep.MatchStar | xv6-public/grep.c:99-106 | true exactly when some number of fitting characters leaves a rest that matches |
| ShellSyntax.StageParses | xv6-public/sh.c:399-446 | parseexec, and parseblock in it, accept every command of the grammar and return its meaning |
| ShellSyntax.LineParses | xv6-public/sh.c:344-372 | parseline and parsepipe accept every line of the grammar and return its meaning |
| ShellSyntax.LineSound | xv6-public/sh.c:344-446 | whatever parseline accepts is a line of the grammar with that meaning |
| ShellSyntax.GrammarExact | xv6-public/sh.c:327-446 | parsecmd returns a command exactly on the token strings of the lines that mean it |
| ShellSyntax.PrintThenParse | xv6-public/sh.c:327-446 | parsing the fully parenthesised form of a command with at most 9 words each gives the command back |
| ShellSyntax.ParseThenPrint | xv6-public/sh.c:327-446 | everything parsecmd returns can be printed so, and the print parses to it again |
| ShellLex.ParseTextIs | xv6-public/sh.c:265-323 | the parser does not look inside words: parsing spans and parsing texts agree |
| ShellLex.SpellThenLex | xv6-public/sh.c:262-308 | tokens written down with any white space, needed only where they would run together, are read back by gettoken |
| ShellLex.PrintThenParseText | xv6-public/sh.c:262-446 | a command printed with any white space parses to that command |
| ShellLex.TextGrammarExact | xv6-public/sh.c:262-446 | parsecmd accepts a string as a command exactly when its tokens are a line that means it |
| ShellNodes.ChainTree | xv6-public/sh.c:374-396 | the redirections built around a node stand for the command wrapped in them |
| ShellNodes.ChainFilled | xv6-public/sh.c:431-441 | filling in the words of a command already wrapped in redirections keeps the wrapping |
| ShellNodes.EndingOutside | xv6-public/sh.c:448-493 | a NUL that ends one word never falls on a character of a word |
| Shell.Parser.GetToken | xv6-public/sh.c:265-308 | the first token left, its kind and its span; the rest is left |
| Shell.Parser.PeekAt | xv6-public/sh.c:310-320 | whether the next token starts with one of the characters; nothing is consumed |
| Shell.Parser.ReadRedirs | xv6-public/sh.c:374-396 | builds the redirections that follow around the node; fails exactly when a file is missing |
| Shell.Parser.FillArgs | xv6-public/sh.c:430-446 | stores the words into the node in place, wrapping it as redirections come; fails exactly on a stray symbol, a tenth word or a redirection without its file |
| Shell.Parser.ReadExec | xv6-public/sh.c:415-446 | the node built stands for the functional parse |
| Shell.Parser.ReadBlock | xv6-public/sh.c:399-412 | the node built stands for the functional parse |
| Shell.Parser.ReadPipe | xv6-public/sh.c:361-372 | the node built stands for the functional parse |
| Shell.Parser.ReadLine | xv6-public/sh.c:344-358 | the node built stands for the functional parse |
| Shell.Parser.Nulterminate | xv6-public/sh.c:448-493 | stores a NUL at the end of each word of the command and changes no other character |
| Shell.Parser.ParseCmd | xv6-public/sh.c:327-341 | succeeds exactly when the line parses, with the same command, and each word of it is a C string equal to its token |
| PageTables.Partition | xv6-public/vm.c:35-80 | at most one entry of one address space points at a frame, and none at a free frame or a directory |
| PageTables.AllowsPte | xv6-public/vm.c:49-52 | what a page allows, being what its directory entry and its table entry both allow, is what its table entry says, in every address space |
| PageTables.AddTable | xv6-public/vm.c:45-55 | a new page table changes no mapping of any address space |
| PageTables.PutPte | xv6-public/vm.c:60-80 | storing an entry changes the mapping of that one page of that one directory |
| PageTables.MapUser | xv6-public/vm.c:60-80 | a mapped frame belongs to that page, and all other owners stand |
| PageTables.Unmap | xv6-public/vm.c:266-276 | an unmapped page's frame belongs to no address space any more |
| PageTables.Dismantle | xv6-public/vm.c:283-297 | giving up a directory with all it owns keeps every other address space sound |
| PageMoves.FreePush | xv6-public/kalloc.c:59-79 | the freed frame heads the list linked through the frames, which holds each free frame once |
| PageMoves.FreePop | xv6-public/kalloc.c:82-95 | the head leaves the list |
| PageMoves.FreeSize | xv6-public/kalloc.c:59-95 | the list is as long as there are free frames, so its length counts them |
| PageMoves.Undone | xv6-public/vm.c:233-246 | allocuvm's way out unmaps exactly the pages of the range and frees their frames; of what it took, only page tables stay allocated |
| PageMoves.NothingUnmapped | xv6-public/vm.c:233-246 | when no page of the range was mapped before, that leaves all mappings and user frames as they were |
| Growth.GrowingStops | xv6-public/vm.c:233-241 | allocuvm comes to a page that is mapped already only with frames for all before it, their tables and one more |
| Growth.GrowingShort | xv6-public/vm.c:233-246 | allocuvm gives up only with fewer frames than the pages it comes to and their tables need |
| Paging.Machine.constructor | xv6-public/kalloc.c:31-53 | every frame past the kernel is free |
| Paging.Machine.Kfree | xv6-public/kalloc.c:59-79 | the frame is free; panics exactly outside the pool |
| Paging.Machine.Kalloc | xv6-public/kalloc.c:82-95 | a free frame for the caller, 0 exactly when none is free |
| Paging.Machine.Walk | xv6-public/vm.c:35-56 | the table for the page, made if asked for with at most one frame; its directory entry is writable and open to user mode; no mapping changes; 0 exactly when missing and not made, and when asked for only with no frame free |
| Paging.Machine.Mappages | xv6-public/vm.c:60-80 | the pages, user or kernel, map to the consecutive frames and allow, through both levels, exactly what the permissions say, up to the first one that is present, where it panics, or that cannot get its table, where it fails; nothing else is mapped differently; frames are taken only for missing tables |
| Paging.Machine.Setupkvm | xv6-public/vm.c:118-136 | a new directory with exactly the kernel's mappings if at least 65 frames are free, and exactly these are taken: physical memory and devices, nothing for user mode, text and read-only data not writable; otherwise 0 and every owner as before; no frame in use changes |
| Paging.Machine.Deallocuvm | xv6-public/vm.c:255-279 | exactly the present pages in the range are unmapped, so that the range allows nothing, and exactly their frames become free |
| Paging.Machine.Freevm | xv6-public/vm.c:283-297 | exactly the frames of that address space become free; other frames and mappings stay |
| Paging.Machine.Allocuvm | xv6-public/vm.c:221-248 | new zeroed pages that user mode may read and write through both levels, on frames that were free, or 0, or a panic at a page already mapped; the first mapped page of the range and the frames for the pages up to there and their tables decide which; on 0 the range is unmapped, and with no page there before, all mappings and user frames are as before |
| Paging.Machine.Copyuvm | xv6-public/vm.c:315-345 | the same pages and contents on frames that were free, each allowing through both levels what the original allows, and the kernel's mappings; panics exactly at a page that is not present with frames to get there, 0 exactly when frames run out first; then every owner is as before; no frame in use changes |

## Left out

- Umalloc.Heap.Malloc: requests that no free block fits and for which morecore passes sbrk 0 or a negative size are excluded; `SbrkFitsIff` says which these are.
- Umalloc.Heap.Sbrk: grants lie above everything obtained before, and the program never shrinks its heap.
- Scheduler.Table.AllocProc: what a store outside level 0's array overwrites is not modelled.
- Scheduler.PQueue.DeleteQueue: the shift reads the entry at `end`, so the modelled array has one element more than NPROC.
- MlfqWaiting.BoundedWaiting: one CPU and a closed set of processes that always come back RUNNABLE, which is where the bound holds.
- Log.Device: its methods run one at a time; interleavings of several system calls are steps of `LogRuns`, and waiting in begin_op is its `started == false`.
- ProcRuns.PidsDistinct: the pid counter does not wrap around.
- ProcTable.Table.Wait: one round of the loop at a time; the sleep ends it.
- Bio.Cache: sleep locks are represented by the reference a holder has, device numbers are not 0, and iderw's disk is present.
- FileSystem.Device: device inodes, the inode cache with its reference counts (iget, iput, ilock) and the inode's type and link count are not modelled.
- FileWrite.Filewrite: pipes and the write permission check are not modelled.
- DiskImage.Image: bitmap and inode blocks are lists of their values; the bytes of struct dinode and its type, device and link count do not appear.
- Transactions.Server: system calls overlap, but an operation runs as a whole, and its log_writes come at its end with the final contents, which is what absorption leaves; block accesses of two operations do not interleave.
- Transactions.Server.Transact: a disk with one bitmap block, which keeps an operation within its reservation.
- CommitBuffers.CommitBread: the buffers that other processes hold during a commit are an input.
- LogCache.Logger: between its steps no holder has changes in a buffer that are not logged yet; in recovery, InstallBlock says what it does but not when bget has two buffers for it.
- Namei.Namex: which inodes are directories is an input, and reference counts and locks are not modelled.
- Namei.Dirlink: inode numbers are between 1 and 65535, the width of the field in an entry.
- Paging.Machine: physical and kernel virtual addresses are both frame numbers, so the offset KERNBASE does not appear; `data` and `end` are page aligned.
- Shell.Parser: malloc in the constructors does not fail, and an argv array is a sequence.
- Running commands (runcmd), grep's line buffering and main programs.
- Boot, traps, interrupts, devices, the disk driver's queue, spin locks and memory ordering: locked regions are atomic steps.
- Several CPUs in the scheduler, its statistics and debug arrays, and getpinfo.
- mkfs, exec, inituvm, loaduvm, clearpteu, uva2ka, copyout, growproc and system call argument fetching.
- Link counts, unlink and rename of directories.
