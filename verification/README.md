# Verified models of the operating systems lab

Dafny models of five programs of the lab repository, each with proofs of what it is there for.

| part | files | what is proved |
|---|---|---|
| MINIX MFS file mapping with immediate files | `Words`, `ZoneTree`, `ZoneOwner`, `FileBytes`, `ZoneNeeds`, `Mfs` | reads, writes and peeks through the three-level zone tree behave like a plain byte sequence; every zone is referenced from exactly one place and none leaks; a write succeeds exactly if the free zones cover the holes in its range and the index blocks missing on the way; mapping and freeing undo each other; immediate files behave like ordinary ones across the switch |
| MINIX process manager: fork, exit, wait | `ProcTable`, `ProcSafety`, `ProcRuns`, `ProcNotices`, `ProcWakeups`, `ProcessManager` | over every run: no panic, each exited slot freed exactly once after parent and VFS, live parents and tracers, an exact process count; a process stops waiting exactly on one notice; exactly when a wake-up can be lost |
| Buddy allocator | `BuddyTree`, `BuddyHeap`, `BuddySafety`, `BuddyRuns`, `BuddyAllocator` | over every run: tree, free lists and name map agree; the used blocks determine the tree; refusal is exact; allocating and freeing is the identity, or drains the heap |
| Page replacement | `Paging`, `LruStack`, `FifoFrames`, `Pager` | Sleator and Tarjan's competitive bound for LRU and FIFO against any policy; LRU as a stack algorithm; exactly which numbers of frames can give FIFO more faults with more frames |
| Shortest-job-first scheduler | `SjfModel`, `SjfSafety`, `SjfRuns`, `SjfSimulator` | no process on two devices, every burst holds its device for exactly its length, exact payment and completion times; the loop ends exactly if it never gets stuck, and in time; exactly when no tick is wasted |

`dafny verify dfyconfig.toml` checks the project.

## How the parts are modelled

**MFS.** Blocks are byte sequences; index entries are four-byte words inside them, and so are the
inode's zone slots, because an immediate file keeps its bytes in that same array. The superblock's
block size, zone count and first data zone are constants without a value, so every result holds
for all of them; the log zone size is 0, as write.c:252 asserts. A buffer taken with `NO_READ`
holds arbitrary bytes. `alloc_zone` returns any free data zone and fails exactly if there is none.
`Ref(v, p)` is the zone number at a *place* of the tree, `NO_ZONE` when the index block that would hold
it is absent, and
`Owned` says that the zones in use are exactly those of other files, those just allocated, and those
referenced from one place each. Zeros in gaps follow the `lseek()` and `read()` entries in chapter 3
of the System Interfaces volume of POSIX.1-2017.

**Process manager.** Each handler is a function from one process table to the next (`ProcTable`); the
class `Manager` runs the handlers in place and is proved equal to them. A run is any sequence of
forks, exits, VFS replies and waitpid calls, interleaved with the steps of other parts of the
process manager: a tracer attaches, a signal ends a wait, a process starts a group, a tracee stops.
Taken as given: `tell_vfs` sets VFS_CALL, a VFS reply clears it and runs `exit_restart`, `exit_proc`
is entered only for a live process with no VFS call pending, `sig_proc` only queues a later step, and
neither the process manager itself, which holds slot 0 for good, nor an exiting process makes calls. The semantics follow the
`wait()`/`waitpid()` entry in the same volume of POSIX.1-2017.

**Buddy allocator.** A block is named by its path from the root, in place of a node pointer; free lists
are keyed by the logarithm of the size. A freed name must be running and an allocated one must not.

**Page replacement.** Requests in range and at least one frame. `random.cpp` numbers pages from zero
(line 18), the other two from one. Its draw-until-resident loop becomes the choice of any resident page.

**Scheduler.** Input as the program expects it: arrivals in order, bursts that alternate, begin and end on
the CPU, take a tick or more each and stay below `INT_MAX`. Only the results on the end of the loop ask for
more, and say what.

## What turned out false of the code

- A position past the double indirect range makes `write_map` link a double indirect block and only
  then return EFBIG, before zeroing it (write.c:84-111). The tree stays sound exactly if that stale
  block holds no zone number (`Mfs.StaleDoubleSound`); so it is sure to, whichever zone is picked, if and
  only if no free zone holds one (`Mfs.StaleDoubleSafe`), and with old zone numbers in every free zone
  it breaks (`Mfs.StaleBlock`). `fs_readwrite` checks the size first for writes; peeks are not
  checked, so `Mfs.Inode.Peek` asks for a range the tree can map.
- A read of an immediate file ignores position and count (read.c:132-157). It agrees with a byte
  sequence exactly if it starts at or past the end, or asks for the whole file from 0
  (`Mfs.Inode.Read`).
- An immediate file that outgrows the inode on a device without a free zone loses its bytes, because
  the inode is erased before the block is allocated (read.c:109-113). `Mfs.Inode.Write` states it both
  ways: old bytes are gone exactly if the write is allowed, outgrows the 32 bytes, finds no data zone
  free, and the file was not empty. `Mfs.LosingWrites` is such an input.
- A write that fails at once, or writes nothing, leaves the file as it was exactly if it begins within
  the file; past the end it moves the end to its position (read.c:203-207, `FileBytes.EmptyWrite`).
- Storing a zone over another one (`write_map` without WMAP_FREE at a mapped position, write.c:68 and
  170) leaks the old zone: it stays in use and is referenced from nowhere (`Mfs.Inode.WriteMap`).
- `waitpid(0)` is about the caller's process group exactly if that group is above 1; in group 0 or 1 any
  child will do (`ProcNotices.WantedExactly`).
- `waitpid(0)` by a caller whose process group is 0 waits with pid argument 0. `do_waitpid`'s filter
  takes any child then, `wait_test` only children without a group, and a wake-up can be lost.
  Only so (`ProcWakeups.RunLosesNoWakeup`): from a calm table no run ever loses a wake-up if and only if
  every process that makes calls has a group (`ProcWakeups.WakeupsExactly`). A table with INIT alone is
  safe for good; with a system process of group 0 beside it, fork, a new group for the child, wait and
  exit lose one (`ProcWakeups.BootLosesNothing`, `ProcWakeups.BootWithSystemLoses`).
- A buddy heap whose last block is freed is on no free list and refuses everything afterwards
  (`BuddySafety.ReleaseKeeps`, `BuddyRuns.DrainedForever`); allocating and freeing restores the heap
  exactly if memory was not one single block (`BuddyRuns.AllocThenRelease`).
- FIFO can fault more often with more frames. With k frames instead of h it never does, whatever is
  requested, if and only if k = h or k >= 2h - 1 (`FifoFrames.FramesNeverHurtExactly`); for every pair in
  between, the sequence noted in fifo.cpp, stretched to h and k, faults once more with k
  (`FifoFrames.FifoAnomaly`). How much worse it can get is bounded (`FifoFrames.AnomalyBounded`).
- A CPU burst of one tick leaves `cpu.curr_pid` set (sjf-hash.c:313-314) and can block its process for
  good, and so can the 0 that `cpu.curr_pid` starts with: from time 1 on `find_next` passes over the
  process it names (line 140). For every input the loop ends if and only if it never reaches a state
  where only the process that the idle CPU still names has bursts left (`SjfRuns.EndsExactly`). With
  CPU bursts of two ticks or more but for each last one, it ends if and only if it is not given a
  single process that arrives after time 0 (`SjfRuns.LongInputEnds`, `SjfRuns.LoneLateSticks`). For one
  process it ends if and only if that arrives at 0 and every CPU burst but its last takes two ticks or
  more (`SjfRuns.OneProcessEnds`); bursts C1, I1, C2 are the least that hang
  (`SjfRuns.OneTickBurstSticks`).
- A tick can also pass without serving an arrived process that has bursts. With bursts as above no tick
  does if and only if process 0 is there at time 0 or process 1 comes with it
  (`SjfRuns.NoneWastedExactly`).

## Model

| member | source | states |
|---|---|---|
| Words.WordOfSetWord | Assignment 10/mfs/write.c:197-214 | writing one entry of an index block changes that entry and no other, and the entry reads back as written |
| ZoneTree.SetRefAt | Assignment 10/mfs/write.c:141-175 | storing a zone number at one place of the tree changes what is referenced there and nowhere else, given a childless place and an empty new index block |
| ZoneTree.OverwriteAt | Assignment 10/mfs/read.c:403-415 | changing the contents of a block that is not an index block keeps every reference |
| ZoneOwner.MappableIff | Assignment 10/mfs/write.c:57-100 | the tree maps exactly the direct, single indirect and double indirect blocks |
| ZoneOwner.PlaceOfInjective | Assignment 10/mfs/read.c:443-497 | no two blocks of a file share a place in the tree |
| ZoneOwner.RefIsFetch | Assignment 10/mfs/read.c:443-497 | the zone of block n is word n of the inode for n < 7, word n - 7 of the block named by word 7, or, with e blocks past that, word e % w of the block named by word e / w of the block named by word 8, w being the words of a block |
| ZoneOwner.PlaceChangesFetch | Assignment 10/mfs/write.c:57-175 | changing what hangs at one block's place changes that block's zone in this layout and no other block's |
| ZoneOwner.AttachOwned | Assignment 10/mfs/write.c:121-136 | hanging a pending zone at an empty place keeps ownership and changes only that reference |
| ZoneOwner.DetachOwned | Assignment 10/mfs/write.c:146-168 | clearing a childless place and freeing its zone keeps ownership and changes only that reference |
| ZoneOwner.ReplaceOwned | Assignment 10/mfs/write.c:64-69 | storing a zone over another one keeps ownership, changes only that reference and leaves the old zone in use without a reference |
| ZoneOwner.OverwriteOwned | Assignment 10/mfs/read.c:407-412 | writing data into a data block keeps ownership and every reference |
| ZoneOwner.FreshIndex | Assignment 10/mfs/write.c:84-113 | a freshly allocated zone, linked and then zeroed, is an empty index block of a sound tree, with all data kept |
| ZoneOwner.SameRefsSameZones | Assignment 10/mfs/write.c:146-186 | two sound trees with the same references own exactly the same zones |
| FileBytes.ReadBack | Assignment 10/mfs/read.c:81-85 | a write to a plain byte sequence is read back exactly, keeps the rest and turns a gap into zeros |
| FileBytes.ByteIsOnDisk | Assignment 10/mfs/read.c:403-412 | a byte of the file is the byte at position modulo block size in the block the layout names, and a hole reads as zero |
| FileBytes.EmptyWrite | Assignment 10/mfs/read.c:203-207 | a write of nothing keeps the file exactly if it begins within it, and otherwise moves the end with zeros |
| FileBytes.SpliceInBlock | Assignment 10/mfs/read.c:407-412 | replacing a run inside one block replaces exactly the same run of file positions |
| FileBytes.TailStaysZero | Assignment 10/mfs/read.c:382-401 | where rw_chunk drops the old buffer, everything past the chunk in that block was zero |
| FileBytes.SpliceIsWriteAt | Assignment 10/mfs/read.c:203-207 | a run spliced into a volume that is zero past its end is a write to the byte sequence it stands for, and the volume stays zero past the new end |
| FileBytes.ReadIsReadAt | Assignment 10/mfs/read.c:179-183 | the bytes read are those of the sequence, cut at its end |
| FileBytes.WholeReadAgrees | Assignment 10/mfs/read.c:124-157 | returning the whole immediate file is right exactly if the read starts past the end or asks for all of it from 0 |
| FileBytes.EmptyTreeOwned | Assignment 10/mfs/read.c:232-241 | an inode of zeros maps nothing, owns nothing and reads as zero |
| ZoneNeeds.NeedsOfOne | Assignment 10/mfs/write.c:73-145 | a block needs nothing if it is mapped, and otherwise one zone and one for each index block missing on the way |
| ZoneNeeds.FillStep | Assignment 10/mfs/write.c:73-175 | with one block filled, any other blocks need what they needed before less what it took |
| ZoneNeeds.BalanceStep | Assignment 10/mfs/read.c:174-196 | filling one block of a range keeps free zones and needs of the rest in balance with those at the start |
| ZoneNeeds.BalanceFails | Assignment 10/mfs/read.c:174-196 | a block that cannot be filled tells that the free zones at the start were fewer than the needs of the whole range |
| Mfs.MapsPositions | Assignment 10/mfs/read.c:424-499 | a new mapping shows at every position of its block and at no other position |
| Mfs.StaleDoubleSound | Assignment 10/mfs/write.c:84-111 | after EFBIG with a newly linked double indirect block, ownership holds if and only if the never-zeroed block holds no zone number |
| Mfs.StaleDoubleSafe | Assignment 10/mfs/write.c:84-111 | whichever free zone is linked, ownership holds after EFBIG if and only if no free zone holds a zone number |
| Mfs.StaleBlock | Assignment 10/mfs/write.c:84-111 | with old zone numbers in every free zone, asking a new file for a block past the tree breaks ownership |
| Mfs.MapUnmap | Assignment 10/mfs/write.c:146-186 | mapping a hole and unmapping it restores every reference if and only if no empty index block hung on the way |
| Mfs.Inode.constructor | Assignment 10/mfs/read.c:232-241 | a new file, regular or immediate, is valid and empty |
| Mfs.Inode.AllocZone | Assignment 10/mfs/write.c:290-291 | a zone that was free, now in use; NO_ZONE and no change exactly if no data zone was free |
| Mfs.Inode.GetBlockNoRead | Assignment 10/mfs/write.c:306-307 | a NO_READ buffer has arbitrary contents; other blocks are untouched |
| Mfs.Inode.ZeroBlock | Assignment 10/mfs/write.c:316-324 | the block holds zeros; other blocks are untouched |
| Mfs.Inode.EmptyIndirect | Assignment 10/mfs/write.c:220-233 | true exactly if every entry of the index block is NO_ZONE |
| Mfs.Inode.Store | Assignment 10/mfs/write.c:197-214 | one zone number is written at one place |
| Mfs.Inode.ZeroIndex | Assignment 10/mfs/write.c:109-112 | a linked block becomes an empty index block of a sound tree; data of this and other files is kept |
| Mfs.Inode.EnsureIndex | Assignment 10/mfs/write.c:121-145 | an index block is found or created empty; nothing else changes; it fails, without effect, exactly if it is missing and no zone is free |
| Mfs.Inode.EnsureDouble | Assignment 10/mfs/write.c:84-115 | the double indirect block is found or created; ENOSPC exactly if it is missing and no zone is free; an index past its end is refused only after linking, leaving the stale block described by StaleDouble |
| Mfs.Inode.MapIndirect | Assignment 10/mfs/write.c:73-175 | OK: the zone hangs at its place, missing index blocks exist, nothing else changed, and a zone hung over is leaked; ENOSPC exactly if fewer zones are free than index blocks missing, with at most an empty double indirect block attached and no zone leaked; EFBIG exactly past the tree unless out of space |
| Mfs.Inode.FreeEntry | Assignment 10/mfs/write.c:146-168 | the entry is freed, and its index block with it exactly if that left it empty |
| Mfs.Inode.FreeIndirect | Assignment 10/mfs/write.c:141-190 | the position is unmapped, index blocks that became empty are gone and none stays attached empty, ownership holds |
| Mfs.Inode.WriteMap | Assignment 10/mfs/write.c:28-191 | the zone of the block position / block size in that layout is the new one, or none with WMAP_FREE, and no other block's zone changes; with the outcomes of MapIndirect and FreeIndirect, mapped before or not; an immediate file is left alone |
| Mfs.Inode.ReadMap | Assignment 10/mfs/read.c:424-499 | the zone the layout names for the block position / block size, in terms of the inode's words and the index blocks, or none |
| Mfs.Inode.MapFresh | Assignment 10/mfs/write.c:276-304 | a zone is allocated and hung, or given back; ENOSPC exactly if fewer zones are free than one and the missing index blocks; no other block's bytes change and ownership holds, except past the tree, where EFBIG leaves the stale double indirect block |
| Mfs.Inode.NewBlock | Assignment 10/mfs/write.c:260-310 | the block returned is the one read_map gives from now on, it reads as zeros, and every other byte of the file is as before; ENOSPC exactly if there was a hole and too few zones are free, and changes no byte; EFBIG past the tree |
| Mfs.Inode.CopyIn | Assignment 10/mfs/read.c:377-412 | exactly the given bytes change, although the buffer may be taken unread |
| Mfs.Inode.BlockFor | Assignment 10/mfs/read.c:350-373 | the block for a write or peek exists, zeroed if it is new; no byte of the file changes; it fails exactly if there is a hole and too few zones are free |
| Mfs.Inode.RwChunk | Assignment 10/mfs/read.c:313-418 | a write replaces exactly its run, a read returns it, a peek changes no byte; it fails exactly if it needs a block for a hole and too few zones are free, and then changes no byte |
| Mfs.Inode.Transfer | Assignment 10/mfs/read.c:174-196 | the loop moves a prefix of the request; a write or peek moves all of it if and only if the free zones cover the holes in the range and the index blocks missing on the way, and stops at a hole it cannot fill |
| Mfs.Inode.Read | Assignment 10/mfs/read.c:124-196 | a regular file returns exactly the requested part of its contents; an immediate one returns all of itself or nothing, which is the requested part exactly if the read starts past the end or asks for all of it from 0; nothing changes |
| Mfs.Inode.Peek | Assignment 10/mfs/read.c:367-376 | contents, size and other files' blocks are unchanged, whatever blocks get created; it succeeds exactly if the free zones cover what the range needs |
| Mfs.Inode.WriteRegular | Assignment 10/mfs/read.c:174-207 | contents become those of the byte sequence with the moved prefix written; all of it is moved if and only if the free zones cover what the range needs; the file stays valid and other files' blocks are unchanged |
| Mfs.Inode.WriteImmediate | Assignment 10/mfs/read.c:159-170 | contents become those of the byte sequence with the data written; the file stays immediate, zero past its end and without zones |
| Mfs.Inode.RemoveEntry | Assignment 10/mfs/read.c:232-241 | the inode maps nothing and reads as zero everywhere |
| Mfs.Inode.Outgrow | Assignment 10/mfs/read.c:97-119 | the old bytes end up in block 0 of a regular file with size 0; they are lost exactly if no zone is free |
| Mfs.OutgrownNeeds | Assignment 10/mfs/read.c:97-119 | with block 0 paid for, the rest of an outgrowing write needs exactly what is left of the whole demand |
| Mfs.Inode.WriteOutgrowing | Assignment 10/mfs/read.c:95-207 | through the switch the old bytes survive and the write lands as on a byte sequence, unless no zone is free, and then the bytes are lost; it succeeds exactly if the free zones cover block 0 and what the range needs |
| Mfs.Inode.Write | Assignment 10/mfs/read.c:72-226 | OK if and only if the volume is writable, the size limit is kept and the free zones cover the demand; EROFS and EFBIG exactly when due and without effect; old bytes lost exactly if an immediate file with bytes outgrows its inode with no zone free; otherwise contents are the byte sequence with the moved prefix written, and the mode switches exactly past 32 bytes |
| Mfs.Inode.WriteAll | Assignment 10/mfs/read.c:95-207 | any run of successful writes leaves the contents a plain byte sequence would have, whether the file began immediate or regular |
| Mfs.Inode.MapThenFree | Assignment 10/mfs/write.c:28-191 | mapping a zone into a hole and freeing it restores every reference exactly if no empty index block hung on the way, and then the zone bitmap too |
| Mfs.LosingWrites | Assignment 10/mfs/read.c:95-119 | on a full device a byte written to a new immediate file is gone after a failing write at 32 |
| ProcSafety.CleanupKeeps | Assignment 02/part3/forkexit.c:722-731 | freeing a slot whose parent was told and whose VFS call ended keeps the invariant |
| ProcSafety.TellParentKeeps | Assignment 02/part3/forkexit.c:637-659 | telling a parent ends its waiting, sends it the notice, keeps every other slot's invariant, and reaches no panic |
| ProcSafety.TellTracerKeeps | Assignment 02/part3/forkexit.c:664-683 | telling a tracer ends its waiting, sends it the notice, turns a trace zombie into a zombie and keeps every other slot's invariant |
| ProcSafety.CheckParentKeeps | Assignment 02/part3/forkexit.c:599-632 | after checking on a zombie's parent the invariant holds, or the parent has been told and only freeing the slot is left |
| ProcSafety.ZombifyKeeps | Assignment 02/part3/forkexit.c:563-594 | an exiting process becomes zombie, trace zombie or told, with no waiter left asleep |
| ProcSafety.TracerDiedKeeps | Assignment 02/part3/forkexit.c:688-717 | losing a tracer keeps the invariant and leaves no link to it |
| ProcSafety.DisinheritOneKeeps | Assignment 02/part3/forkexit.c:366-388 | one turn of the loop keeps the invariant and cuts the slot's links to the exiting process |
| ProcSafety.ExitKeeps | Assignment 02/part3/forkexit.c:254-392 | exit, with or without core dump and tracer, keeps the invariant |
| ProcSafety.VfsReplyKeeps | Assignment 02/part3/forkexit.c:397-450 | a VFS reply keeps the invariant; a reply to an exit frees the slot exactly if the parent has been told |
| ProcSafety.ExitAsksVfs | Assignment 02/part3/forkexit.c:270-350 | an exit leaves the process occupied and exiting with one request to VFS: a core dump if and only if one was asked for, the process is not set-uid and not a system process |
| ProcRuns.FiltersAgree | Assignment 02/part3/forkexit.c:471-558 | wait_test and do_waitpid's filter agree for every pid argument but 0, where they agree exactly on children without a group |
| ProcRuns.ScanMeaning | Assignment 02/part3/forkexit.c:478-535 | the first acceptable slot with something to collect is acted on; ECHILD exactly if no slot is acceptable; otherwise the caller waits or returns at once |
| ProcRuns.ScanKeeps | Assignment 02/part3/forkexit.c:455-536 | waitpid keeps the invariant, so nobody starts waiting with something to collect |
| ProcRuns.TracerFirst | Assignment 02/part3/forkexit.c:563-594 | a tracer other than the parent hears of an exit before the parent does, and which of the three notices results |
| ProcRuns.SearchFinds | Assignment 02/part3/forkexit.c:66-74 | if a slot is free the cyclic search stops within one turn at the first free slot |
| ProcRuns.ForkFinds | Assignment 02/part3/forkexit.c:59-74 | whenever the table check passes the search succeeds, so both panics are unreachable |
| ProcRuns.FreeSlotHasNoKin | Assignment 02/part3/forkexit.c:86-92 | nobody's parent or tracer is a free slot, so a recycled slot acquires no kin |
| ProcRuns.ForkMakesChild | Assignment 02/part3/forkexit.c:59-125 | a fork fills one free slot, never slot 0, with a live child of the caller that has its group, user ids and trace flag, keeps all others and adds one to the count; a caller that is not the superuser leaves the last slots free |
| ProcRuns.ForkRefusedExactly | Assignment 02/part3/forkexit.c:59-80 | EAGAIN exactly if no slot is free, or only the last few are and the caller is not the superuser; no slot changes then or when memory cannot be copied |
| ProcRuns.ForkKeeps | Assignment 02/part3/forkexit.c:44-135 | fork keeps the invariant in all its outcomes |
| ProcRuns.StepKeeps | Assignment 02/part3/forkexit.c:44-731 | every step keeps the invariant |
| ProcRuns.Run | Assignment 02/part3/forkexit.c:44-731 | the invariant holds at the end of every run |
| ProcRuns.RunIsSafe | Assignment 02/part3/forkexit.c:353-731 | in every run no panic is reached, the count is exact, each slot is freed once per exit, after one notice to the parent and one VFS reply, and not left occupied after both; ZOMBIE, TRACE_ZOMBIE and TOLD_PARENT exclude each other |
| ProcRuns.RunKeepsKin | Assignment 02/part3/forkexit.c:366-388 | in every run parents and tracers are in use and not exiting |
| ProcRuns.BootInv | Assignment 02/part3/forkexit.c:722-731 | a table holding the process manager itself and INIT satisfies the invariant |
| ProcNotices.CheckParentNotes | Assignment 02/part3/forkexit.c:599-659 | whoever stops waiting is sent one notice, and nobody else is; an exiting parent is not told |
| ProcNotices.ZombifyNotes | Assignment 02/part3/forkexit.c:563-594 | the same for a process that becomes a zombie |
| ProcNotices.DisinheritNotes | Assignment 02/part3/forkexit.c:366-388 | over the whole loop slots stop waiting exactly on one notice, the parent of a slot told of does not wait, and parents change to INIT exactly where they were the exiting process |
| ProcNotices.ExitMeaning | Assignment 02/part3/forkexit.c:254-392 | after an exit its children have INIT as parent and its tracees no tracer, every other link is as before, and whoever stops waiting was sent one notice |
| ProcNotices.CollectNotes | Assignment 02/part3/forkexit.c:493-523 | collecting a child or tracee sends the caller exactly one notice, and nobody else any who was not waiting |
| ProcNotices.WaitOnMeaning | Assignment 02/part3/forkexit.c:493-523 | a stopped tracee has one signal less; a collected child is freed if VFS is done and told otherwise; a collected tracee is a zombie to its parent, or collected by it if it waits |
| ProcNotices.PassMeans | Assignment 02/part3/forkexit.c:493-523 | a slot has nothing for the caller exactly if it is no zombie to it as child, and neither zombie nor stopped with a signal as tracee |
| ProcNotices.WantedExactly | Assignment 02/part3/forkexit.c:471-486 | the filter means what waitpid's argument says for every argument but 0, and for 0 exactly if the caller's group is above 1 |
| ProcNotices.EchildExactly | Assignment 02/part3/forkexit.c:478-535 | ECHILD if and only if the caller has no child it has not been told of, and no tracee that is not a zombie, among those it asks for |
| ProcNotices.StepNotes | Assignment 02/part3/forkexit.c:44-731 | in every step a process it is not about stops waiting if and only if it is sent a notice, and is sent one only if it was waiting; nobody is left waiting with a notice; the parent of a slot told of does not wait |
| ProcNotices.AsleepUnnoticed | Assignment 02/part3/forkexit.c:455-731 | in every run a process that goes on waiting is sent no notice |
| ProcWakeups.RunLosesNoWakeup | Assignment 02/part3/forkexit.c:471-593 | in every run a wake-up is lost only on a waiter with pid argument 0, and only for a child with a group |
| ProcWakeups.StepGrouped | Assignment 02/part3/forkexit.c:44-731 | every step keeps groups positive and pid arguments of waiters nonzero |
| ProcWakeups.GroupedLosesNoWakeup | Assignment 02/part3/forkexit.c:471-593 | from a table where every process has a group no run loses a wake-up, whatever is passed to waitpid |
| ProcWakeups.ZeroArgumentLosesWakeup | Assignment 02/part3/forkexit.c:551-593 | whoever waits with pid argument 0 sleeps on when a child with a group exits, if the child is untraced and has no children or tracees |
| ProcWakeups.LosingRun | Assignment 02/part3/forkexit.c:471-593 | from any calm table with a process of no group, fork, a group for the child, wait and exit are possible and leave the waiter asleep beside its zombie |
| ProcWakeups.WakeupsExactly | Assignment 02/part3/forkexit.c:471-593 | from a calm table no run loses a wake-up if and only if every process that makes calls has a group |
| ProcWakeups.BootLosesNothing | Assignment 02/part3/forkexit.c:471-593 | with INIT alone at the start no run ever loses a wake-up |
| ProcWakeups.BootWithSystemLoses | Assignment 02/part3/forkexit.c:471-593 | with a system process of group 0 beside INIT there is a run that loses one |
| ProcessManager.Manager.Zombify | Assignment 02/part3/forkexit.c:563-594 | the handler in place computes the function the lemmas are about |
| ProcessManager.Manager.CheckParent | Assignment 02/part3/forkexit.c:599-632 | the handler in place computes its function |
| ProcessManager.Manager.TracerDied | Assignment 02/part3/forkexit.c:688-717 | the handler in place computes its function |
| ProcessManager.Manager.Disinherit | Assignment 02/part3/forkexit.c:366-388 | the loop computes the recursive function over all slots |
| ProcessManager.Manager.ExitProc | Assignment 02/part3/forkexit.c:254-392 | computes its function and keeps the invariant |
| ProcessManager.Manager.VfsReply | Assignment 02/part3/forkexit.c:397-450 | computes its function and keeps the invariant |
| ProcessManager.Manager.DoWaitpid | Assignment 02/part3/forkexit.c:455-536 | the scanning loop computes its function, result included, and keeps the invariant |
| ProcessManager.Manager.FindSlot | Assignment 02/part3/forkexit.c:66-70 | the do-while loop computes the search |
| ProcessManager.Manager.DoFork | Assignment 02/part3/forkexit.c:44-135 | computes its function, keeps the invariant and never panics |
| BuddyTree.SubOfPut | CS304 - PA/buddy.cpp:120-142 | replacing one block shows at and below it, leaves splits above it and nothing else changed |
| BuddyTree.ShapeIsUnique | CS304 - PA/buddy.cpp:241-257 | two trees without free buddies and with the same used blocks are equal |
| BuddyTree.Tiling | CS304 - PA/buddy.cpp:120-142 | every path as long as the tree is high runs through exactly one leaf |
| BuddyTree.AddressIsPath | CS304 - PA/buddy.cpp:120-142 | byte addresses and paths of full length are in one-to-one correspondence |
| BuddyTree.BytesTiled | CS304 - PA/buddy.cpp:120-142 | every byte of memory lies in exactly one leaf |
| BuddyTree.Aligned | CS304 - PA/buddy.cpp:120-142 | every block lies in memory at a multiple of its size |
| BuddyTree.Apart | CS304 - PA/buddy.cpp:120-142 | blocks neither of which contains the other do not overlap |
| BuddyTree.CanonicalPut | CS304 - PA/buddy.cpp:241-271 | replacing a block leaves no two free buddies unless it becomes free beside a free one |
| BuddyHeap.Want | CS304 - PA/buddy.cpp:78-88 | the least allowed order whose block holds the request |
| BuddyHeap.Available | CS304 - PA/buddy.cpp:281-287 | the least order from the wanted one up with a free block, or none |
| BuddySafety.PushMatch | CS304 - PA/buddy.cpp:306-327 | splitting down and filling the bottom block leaves lists that hold exactly the free blocks |
| BuddySafety.AllocNames | CS304 - PA/buddy.cpp:294-327 | the name map stays a bijection onto used blocks of the least fitting size |
| BuddySafety.AllocKeeps | CS304 - PA/buddy.cpp:274-328 | every request for memory keeps the invariant |
| BuddySafety.ClimbMatch | CS304 - PA/buddy.cpp:174-271 | after coalescing the lists hold exactly the free blocks, except that all of memory is on none |
| BuddySafety.ReleaseKeeps | CS304 - PA/buddy.cpp:231-271 | every release keeps the invariant and drains the heap if and only if nothing else was running |
| BuddyRuns.RefusedExactly | CS304 - PA/buddy.cpp:278-291 | before a drain a request is refused if and only if no aligned block of the needed size is wholly free |
| BuddyRuns.GrantIsRight | CS304 - PA/buddy.cpp:294-327 | a granted request gets a block of the least order that holds it, wholly free before, filed under its name, and no other process's block changes |
| BuddyRuns.GrantIsBestFit | CS304 - PA/buddy.cpp:279-327 | the block is cut from the lower end of the newest free block of the least sufficient order of which any block is free |
| BuddyRuns.SplitLists | CS304 - PA/buddy.cpp:306-319 | splitting puts one right half in front of each list between the two orders and leaves the other lists alone |
| BuddyRuns.ReleaseIsRight | CS304 - PA/buddy.cpp:231-271 | a release takes one name off the map, frees all of its block and leaves every other process's block alone |
| BuddyRuns.JoinedFirst | CS304 - PA/buddy.cpp:241-271 | the joined block comes to the front of its list, unless it is all of memory |
| BuddyRuns.ClimbUndoes | CS304 - PA/buddy.cpp:241-271 | coalescing takes back exactly what splitting put on the lists |
| BuddyRuns.AllocThenRelease | CS304 - PA/buddy.cpp:231-327 | allocating and freeing restores tree, lists in order and names if memory was not one block, and drains it otherwise |
| BuddyRuns.FreshInv | CS304 - PA/buddy.cpp:385-396 | a new heap is one free block with nothing running; it satisfies the invariant and is not drained |
| BuddyRuns.Run | CS304 - PA/buddy.cpp:227-329 | the invariant holds after every sequence of requests |
| BuddyRuns.RunIsSound | CS304 - PA/buddy.cpp:227-329 | in every run no two buddies are free, lists hold each free block once and nothing else unless drained, and names match used blocks |
| BuddyRuns.DrainedForever | CS304 - PA/buddy.cpp:259-265 | a drained heap never grants a request again |
| BuddyAllocator.FindPower | CS304 - PA/buddy.cpp:78-88 | the doubling loop returns the least fitting power of two |
| BuddyAllocator.DropChild | CS304 - PA/buddy.cpp:184-216 | the list surgery removes exactly the one child that is listed |
| BuddyAllocator.Allocator.SplitDown | CS304 - PA/buddy.cpp:306-319 | the splitting loop builds the left spine and pushes its right halves |
| BuddyAllocator.Allocator.FindList | CS304 - PA/buddy.cpp:279-287 | the search loop finds the least list with a block |
| BuddyAllocator.Allocator.Allocate | CS304 - PA/buddy.cpp:274-328 | computes the specified request, the one GrantIsBestFit is about, and keeps the invariant |
| BuddyAllocator.Allocator.Coalesce | CS304 - PA/buddy.cpp:174-225 | unlinks both children and takes the listed one off its list |
| BuddyAllocator.Allocator.JoinUp | CS304 - PA/buddy.cpp:241-257 | the coalescing loop stops at the topmost block it can join, with the lists of the specified climb |
| BuddyAllocator.Allocator.Deallocate | CS304 - PA/buddy.cpp:231-271 | computes the specified release and keeps the invariant |
| BuddyAllocator.Allocator.SendQuery | CS304 - PA/buddy.cpp:227-329 | one line of input is one step of a run |
| Paging.ResidentProps | Assignment 08/lru.cpp:16-39 | the list holds distinct pages, at most as many as frames |
| Paging.OtherServes | Assignment 08/random.cpp:18-34 | a fault of the other policy costs at most the weight of the page it evicts |
| Paging.ListServes | Assignment 08/lru.cpp:20-37 | a fault of the list is paid by the potential or by a frame filled for the first time |
| Paging.Potential | Assignment 08/fifo.cpp:28-49 | the potential bound holds after every request sequence |
| Paging.Competitive | Assignment 08/lru.cpp:16-39 | with k frames LRU and FIFO fault at most k/(k-h+1) times as often as any policy with h <= k frames, plus k; for h = k at most k times plus k |
| Paging.FewPages | Assignment 08/random.cpp:18-34 | whatever victims are drawn, while there are frames for all the pages requested each of them faults exactly once |
| LruStack.RecencyMeaning | Assignment 08/lru.cpp:12-38 | the recency list holds the requested pages once each, by descending last use |
| LruStack.LruHoldsRecent | Assignment 08/lru.cpp:16-39 | LRU with k frames holds the k most recently used pages, latest first |
| LruStack.Inclusion | Assignment 08/lru.cpp:16-39 | the list with fewer frames is a prefix of the list with more |
| LruStack.MoreFramesNoMoreFaults | Assignment 08/lru.cpp:16-39 | adding frames never adds LRU faults |
| FifoFrames.FaultsCovered | Assignment 08/fifo.cpp:28-49 | with at least 2h - 1 frames, FIFO's faults and the credit left over are covered by its faults with h frames |
| FifoFrames.FifoHoldsLatest | Assignment 08/fifo.cpp:28-49 | FIFO holds the last k pages it loaded, latest first, and has faulted once for each load |
| FifoFrames.FifoAnomaly | Assignment 08/fifo.cpp:15-18 | for every h < k < 2h - 1 the stretched sequence faults 2k + 1 times with h frames and 2k + 2 times with k |
| FifoFrames.NotedSequence | Assignment 08/fifo.cpp:15-18 | for three and four frames the stretched sequence is the noted one |
| FifoFrames.FramesNeverHurtExactly | Assignment 08/fifo.cpp:21-53 | with k frames instead of h FIFO never faults more, on any requests, if and only if k = h or k >= 2h - 1 |
| FifoFrames.AnomalyBounded | Assignment 08/fifo.cpp:21-53 | for all requests and h <= k, FIFO with k frames faults at most k/(k-h+1) times as often as with h, plus k |
| Pager.Load | Assignment 08/lru.cpp:20-31 | the fault path keeps residency table and list in agreement |
| Pager.LRU | Assignment 08/lru.cpp:9-42 | counts exactly LRU's faults and hits on the requests less one |
| Pager.FIFO | Assignment 08/fifo.cpp:21-53 | counts exactly FIFO's faults and hits on the requests less one |
| Pager.CountOnes | Assignment 08/random.cpp:22-22 | counts the resident pages of the table |
| Pager.LoadAny | Assignment 08/random.cpp:19-31 | if the frames are full exactly one resident page, of arbitrary choice, goes, otherwise none; and the page comes in |
| Pager.Random | Assignment 08/random.cpp:10-38 | whatever is drawn, a page goes only when the frames are full, the run is one the competitive bound speaks about, and its faults are counted exactly |
| SjfModel.FindNextShortest | Assignment 04/sjf-hash.c:119-166 | find_next returns the first of the shortest eligible jobs, or none exactly if there is none |
| SjfSafety.TickKeeps | Assignment 04/sjf-hash.c:281-424 | a tick keeps the invariant and never serves one process on both devices |
| SjfSafety.TickPays | Assignment 04/sjf-hash.c:284-392 | a tick pays each process exactly the units it serves it |
| SjfSafety.TickServes | Assignment 04/sjf-hash.c:284-392 | while the CPU names nobody who waits, and at time 0, a tick that begins with an arrived process holding bursts serves at least one device |
| SjfSafety.TickServesExactly | Assignment 04/sjf-hash.c:284-392 | a tick serves a device if and only if one is busy or an arrived process that the CPU does not still name has bursts |
| SjfSafety.TickClears | Assignment 04/sjf-hash.c:310-337 | a state that cannot get stuck leads to such a state |
| SjfSafety.TickUnnames | Assignment 04/sjf-hash.c:295-337 | with long CPU bursts the idle CPU goes on naming nobody who waits, and starts to when it is first used |
| SjfSafety.StuckTick | Assignment 04/sjf-hash.c:284-424 | in a stuck state a tick moves nothing but the clock |
| SjfSafety.CompletionIsRight | Assignment 04/sjf-hash.c:405-420 | the completion recorded is the tick of the last dispatch plus the burst's length minus one |
| SjfSafety.DispatchInOrder | Assignment 04/sjf-hash.c:295-306 | bursts leave a process's list one at a time and from the front, each to the idle device of its kind, with its first tick served |
| SjfSafety.CpuTakesShortest | Assignment 04/sjf-hash.c:284-306 | an idle CPU takes the first of the shortest eligible jobs, and none exactly if there is none or that one is busy with I/O |
| SjfSafety.IoTakesShortest | Assignment 04/sjf-hash.c:344-366 | so does an idle I/O device after the CPU half, and none exactly if there is none or that one has just had the CPU |
| SjfSafety.CpuHolds | Assignment 04/sjf-hash.c:319-342 | a busy CPU serves its process and falls idle exactly at the end of the burst |
| SjfSafety.IoHolds | Assignment 04/sjf-hash.c:383-392 | a busy I/O device serves its process and falls idle exactly at the end of the burst |
| SjfRuns.RunPays | Assignment 04/sjf-hash.c:281-424 | over any number of ticks a process is served exactly what it is no longer owed |
| SjfRuns.CpuNotPreempted | Assignment 04/sjf-hash.c:319-342 | a burst on the CPU keeps it for as many ticks as it has left and no longer |
| SjfRuns.IoNotPreempted | Assignment 04/sjf-hash.c:383-392 | the same for the I/O device |
| SjfRuns.CpuBurstHolds | Assignment 04/sjf-hash.c:295-342 | a CPU burst of length v taken in tick d has the CPU in ticks d to d + v - 1, and the CPU falls idle then and not before |
| SjfRuns.IoBurstHolds | Assignment 04/sjf-hash.c:357-392 | the same for an I/O burst and the I/O device |
| SjfRuns.CompletedInRun | Assignment 04/sjf-hash.c:405-420 | in every run, at every tick, a process out of bursts has the right completion recorded |
| SjfRuns.BudgetShrinks | Assignment 04/sjf-hash.c:281-424 | until the loop ends or is stuck each tick reduces time to the last arrival plus work owed |
| SjfRuns.DoneSettles | Assignment 04/sjf-hash.c:284-420 | when every burst is dispatched each process has been served the sum of its bursts but for what the CPU still has left of its last one, and its completion is the right one |
| SjfRuns.StuckForGood | Assignment 04/sjf-hash.c:281-424 | a stuck state lasts for any number of ticks |
| SjfRuns.EndsExactly | Assignment 04/sjf-hash.c:281-424 | for every input the loop ends if and only if no tick leads to a stuck state |
| SjfRuns.LongInputEnds | Assignment 04/sjf-hash.c:281-424 | with CPU bursts of two ticks or more but for each last one, the loop ends if and only if it is not given a single process that arrives after time 0 |
| SjfRuns.LoneLateSticks | Assignment 04/sjf-hash.c:119-166 | a single process that arrives after time 0 is never served, whatever its bursts |
| SjfRuns.NoneWastedExactly | Assignment 04/sjf-hash.c:119-392 | with such bursts every tick that begins with an arrived process holding bursts serves a device if and only if process 0 is there at time 0 or process 1 comes with it |
| SjfRuns.SafeInputEnds | Assignment 04/sjf-hash.c:281-424 | with such bursts and not a single late process, the loop ends by the last arrival plus the sum of all bursts |
| SjfRuns.OneProcessEnds | Assignment 04/sjf-hash.c:310-317 | for one process the loop ends if and only if it arrives at time 0 and every CPU burst but the last takes two ticks or more |
| SjfRuns.OneTickBurstSticks | Assignment 04/sjf-hash.c:310-317 | with bursts C1, I1, C2 nothing but the clock moves after the first tick, for any number of ticks |
| SjfSimulator.Simulator.FindNextProc | Assignment 04/sjf-hash.c:119-166 | the loop computes find_next, whatever the ages |
| SjfSimulator.Simulator.CpuHalf | Assignment 04/sjf-hash.c:284-342 | the CPU half of a tick in place computes its function |
| SjfSimulator.Simulator.IoHalf | Assignment 04/sjf-hash.c:344-392 | the I/O half of a tick in place computes its function |
| SjfSimulator.Simulator.CloseTick | Assignment 04/sjf-hash.c:400-423 | records completions and tells exactly whether every burst is dispatched |
| SjfSimulator.Simulator.OneTick | Assignment 04/sjf-hash.c:281-424 | one turn of the loop is one tick and keeps the invariant |
| SjfSimulator.Simulator.Simulate | Assignment 04/sjf-hash.c:275-424 | with CPU bursts of two ticks or more but for each last one and not a single late process, the loop ends by the last arrival plus the sum of all bursts, in the state the ticks lead to, with every burst dispatched, every process served in full but for the rest of a last burst, and every completion recorded right |

## Left out

- Failing copies between file system and user, and disk errors: every copy succeeds, so a write is cut short only by lack of space.
- Read-ahead, device files (`fs_breadwrite`), directories (`fs_getdents`), timestamps and the dirty flags of the cache: performance or bookkeeping beside the mapping.
- Peeks of immediate files: they run the write branch at read.c:159-163, and no byte sequence describes that.
- Byte order conversion of index entries: entries are stored low byte first; `conv4` is its own inverse and would change nothing.
- Mfs.Inode.ReadMap: entry NR_INDIRECTS of the double indirect block, which read.c:472 lets through, is excluded by a precondition, because reading it leaves the block.
- Mfs.Inode.NewBlock: asks for the same, because it reads the map first.
- Mfs.Inode.RwChunk: asks for a position the tree can map, because past it a peek links a stale double indirect block (see above).
- Mfs.Inode.Transfer: asks for such a range, for the same reason.
- Mfs.Inode.Peek: asks for such a range, for the same reason.
- `do_srv_fork`, CPU accounting, alarms, reply messages, NEW_PARENT, and the death of INIT and VFS themselves: they do not touch the life of a slot.
- The pointers of the buddy tree and of the free lists: blocks are paths and lists are sequences, so aliasing is not modelled. After a request larger than memory the program exits; the model leaves the heap as it is.
- The drawing of random numbers in `random.cpp` until a resident page comes up, which ends only with probability one.
- SJF waiting, response and ratio statistics, the unused I/O queue, and reading the input file.
- `rr-hash.c`, the scheduler, kernel, image and address translation assignments, the VFS files and duplicate copies: no comparable state to reason about, or logic in parts that are not shown.
