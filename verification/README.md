# Verified models of an operating-systems lab repository

Dafny models of the parts of the repository that have real algorithmic state, each
with the properties it is for. The components are independent but for `Arithmetic` and `Errno`:

* **MFS block map and file I/O** (`Lab-10/mfs`). `ZoneWords`, `BlockMap`, `WriteMapSpec`:
  an inode's zone numbers and its indirect blocks as byte areas, the flat map they
  represent, and ownership of zones. `MfsVolume`, `MfsReadMap`, `MfsWrite`: the inode and
  the volume as objects, and `read_map`, `write_map`, `new_block` on them. `FlatFile`,
  `FileBytes`, `MfsReadWrite`, `FileSession`: requests to read and write a file, down to
  chunks and zeroed blocks, against a flat sequence of bytes; immediate files and their
  promotion. `Dirents`, `MfsDirectory`: what a directory
  listing puts out, and the request that lists.
* **Exit and wait in the process manager** (`Lab-02/part3/forkexit.c`). `ProcTable`: the
  process table as a value, its invariant, and which single changes keep it. `ForkExit`:
  the entry points as methods that change the table, and any interleaving of them.
* **Buddy allocator** (`CS304-Assignment/200010004.cpp`). `BuddyTree`: trees as sets of
  positions. `BuddySystem`: the pointer tree, the free list and the pid map as objects.
* **LRU and FIFO page replacement** (`Lab-08`). `Replacement`, `LruStack`: the two policies
  as functions on reference strings and the classic theorems about them. `FifoOrder`: what
  FIFO holds, by positions in the string. `LruLoop`, `FifoLoop`: the two loops.
* **Shortest job first** (`Lab-04/200010004_sjf.cpp`). `SjfSpec`: one turn of the tick loop
  as a function on states, phase by phase, and the accounting each phase keeps. `SjfRun`:
  whole runs and their termination. `SjfOrder`, `SjfBest`: workloads without I/O. `SjfCpu`, `SjfIo`:
  workloads with I/O. `SjfLog`: a log of what the two devices served, and what it says of the order
  of service and of the times reported. `Sjf`: the simulator object.

What the code was found not to do. Where a condition is exact it is said so:

* `write_map` past the last mappable file zone answers EFBIG only after a new double indirect
  block has been hooked in, and never zeroes it (write.c:83-99): the map stays whole for every
  outcome if and only if the call frees, or there was a double indirect block already, or
  every free zone holds only zeros (`RefusedKeepsMap`); with every geometry there is a volume on which it
  breaks (`StaleDoubleExample`).
* `read_map` tests `>` where `write_map` tests `>=` (read.c:473, write.c:99): it goes to the entry
  past the end of a double indirect block if and only if there is one and the file zone is among
  the nr just past the last mappable one (`ReadMap`, `PastTheEnd`, `ReadableExactly`), and with every
  geometry there is a file and a position for which it does (`UnreadableExample`).
* With `WMAP_FREE` and an empty direct slot `write_map` stores `new_zone` (write.c:63-68): a hole is
  left if and only if `new_zone` is NO_ZONE, or the file zone is not a direct one, or it was no
  hole before (`FreedIsHole`).
* A read of an immediate file gives the whole file whatever was asked for (read.c:135-161): right if
  and only if the read starts at 0 and asks for all of it (`WholeFileRead`).
* A write of no bytes past the end of a file makes it longer (read.c:205-208): harmless if and only
  if the position is not past the end (`EmptyWrite`).
* Promotion of an immediate file clears the inode before it asks for a block (read.c:107-116): the
  bytes are still the file's afterwards if and only if the volume was not full or they were all zero
  (`Promote`). On a full volume the file is left empty, so its length survives only if it was 0 (`WriteFile`).
* The padding of a directory record is not written (read.c:733, 781-808), so it shows what the temporary
  buffer held: the records are padded with zeros if and only if at every position of the buffer where a
  record has its padding the last earlier record with something to say there put zero, or none had
  anything to say there (`ExactIffClean`). That is so while less than one buffer has been used
  (`CleanAtFirst`). With a struct dirent of 528 bytes aligned to 8, whose name begins at byte 13, it is
  not so for any listing of 58 names of 60 bytes and then one of 55 (`StaleListing`, `LongNamesStale`).
* `do_waitpid` and `wait_test` select the same children if and only if the argument is not 0, which
  `-mp_procgrp` is for a caller in process group 0 (forkexit.c:471, 553-555): `TestsAgree`. Whenever
  such a caller waits with argument 0, a child outside process group 0 that exits, untraced, without
  children, tracees or a core dump, is left a zombie with its parent waiting, unless that catches SIGCHLD
  (`LoseWakeup`); a run of two requests leads there (`WaitForEachOther`). No other wakeup is lost
  (`NoLostWakeup`).
* `waitpid(0)` stands for the caller's process group, and what `do_waitpid` then lets through are the
  children in that group if and only if its number is more than 1: for group 1 the argument becomes -1,
  any child (forkexit.c:471-486): `OwnGroup`.
* The buddy allocator's split loop tests `>` (200010004.cpp:246): half of the block given out would have
  served too if and only if the request is a power of two no smaller than the least size and the smallest
  free block that fits is larger than it (`HalvedTooSeldom`, `LooseBlock`).
* FIFO faults more often with four frames than with three on a string of twelve references
  (`FifoAnomaly`). No exact condition is claimed; with a frame for every page, and against a single
  frame, more frames never hurt (`EnoughFrames`, `OneFrame`).
* The shortest-job-first loop ends when both queues are empty, even if processes are still to come or
  a device is busy (`LateProcessIsLost`, `StopsWhileBusy`): it is left at the end of somebody's last I/O
  burst if and only if nobody is queued then, whatever is on the processor (`StopsAtLastIo`), and otherwise
  at the end of a last processor burst if and only if nobody is queued, whatever is on the I/O device
  (`StopsAtLastCpu`). With one processor burst each, all processes
  are finished if and only if the work never runs out before the last arrival (`AllFinishedIffNoGap`).
  If everyone ends with a processor burst and no I/O burst is longer than any processor burst, as in
  process1.dat and process2.dat, a process is unfinished if and only if it comes after the loop has ended
  (`CpuBoundFinishes`); so all are finished if all come at tick 0, or if at every tick before the last
  arrival somebody has come who cannot be done by its end (`CoveredFinishes`), as in process1.dat
  (`FileFinishes`). In the opposite case, everyone ending with I/O and every I/O burst longer than every
  processor burst, all are finished if they come at tick 0 (`IoBoundFinishes`). These are sufficient
  conditions only.

How state is modelled: an inode, a volume, a process manager, an allocator with its blocks and a
simulator are classes whose fields the methods change. The process table, queues and free lists are
`seq` fields, block contents and pids `map` fields. Ghost parameters (`others`, `hold`, `x`, `k`, ...)
name what the rest of the system holds or how far a loop has come. `hide` statements only keep
definitions from the verifier where they are not needed.

Domain: zone numbers are 32-bit and stored in native little-endian words. A zone's content is kept
under its first block; file I/O requires one block per zone, as `clear_zone` asserts. The zone allocator
is not part of the sources: it may return any free zone and fails only when there is none. The buddy
allocator takes no pid 0 (its map entry is the root) and no second request of a process that holds a block.
Exit is not asked for a process that is exiting or has a request at VFS, which `tell_vfs` refuses.
Simulated processes have at least one burst and every burst is at least one tick.

## Model

| member | source | states |
|---|---|---|
| ZoneWords.WordOfPut | Lab-10/mfs/write.c:210-212 | a zone number stored in an entry of an indirect block is read back there and every other entry is unchanged, in bytes |
| BlockMap.SiteInjective | Lab-10/mfs/write.c:56-114 | two file zones are never recorded at the same entry |
| BlockMap.SiteOnto | Lab-10/mfs/write.c:56-114 | every direct slot and every entry of an indirect block records some file zone below ndzones + nr + nr² |
| WriteMapSpec.LookupByRange | Lab-10/mfs/write.c:56-114 | where the zone number of a file zone stands on the disk: in i_zone, in the block that the word after the direct zones names, or two blocks below the word after that |
| BlockMap.OwnsAfterUpdate | Lab-10/mfs/write.c:83-135 | if one reference changes, zones stay uniquely referenced and the zones in use remain exactly those referenced and those of others |
| MfsReadMap.ReadMap | Lab-10/mfs/read.c:425-500 | the block of the zone the flat map gives, with the offset in the zone, for direct, single and double indirect positions; NO_BLOCK for holes and past the last file zone; exactly for the unreadable positions it strays past the double indirect block and nothing is known |
| MfsReadMap.MappedZone | Lab-10/mfs/read.c:447-496 | the zone the flat map holds for a direct, single or double indirect file zone, NO_ZONE for a hole or past the last file zone; exactly for the file zones whose entry is number nr it strays |
| MfsReadMap.BlockHolds | Lab-10/mfs/read.c:445-456 | the block given is the one of its zone that holds the position: counted through the file's zones it begins no more than a block before it |
| MfsReadMap.PastTheEnd | Lab-10/mfs/read.c:472-474 | the entry looked for is the one past the end exactly for the nr file zones past the capacity |
| MfsReadMap.ReadableExactly | Lab-10/mfs/read.c:468-482 | the test lets an entry past the end through exactly where a position is not readable |
| MfsReadMap.UnreadableExample | Lab-10/mfs/read.c:468-482 | with every geometry and for each of the nr file zones past the capacity, a file with a double indirect block for which it does |
| BlockMap.EntryOfWithEntry | Lab-10/mfs/write.c:196-213 | after writing one entry of an indirect block every entry of every block reads as before but that one |
| MfsWrite.EmptyIndir | Lab-10/mfs/write.c:219-232 | true if and only if all entries are NO_ZONE |
| MfsWrite.LocateTable | Lab-10/mfs/write.c:72-114 | finds the entry of the file zone, creating the double indirect block only for a write; on failure of the allocator nothing is mapped and nothing leaks; past the range it refuses |
| MfsWrite.WriteEntry | Lab-10/mfs/write.c:120-170 | creates the single indirect block if need be and maps exactly one file zone, or fails with the map as it was |
| MfsWrite.FreeEntry | Lab-10/mfs/write.c:140-187 | unmaps exactly one file zone, frees its zone once, and drops an indirect block exactly when its last entry goes |
| MfsWrite.WriteMap | Lab-10/mfs/write.c:28-190 | on success the file zone is mapped to the new zone (or unmapped and freed) and all others as before; on failure all as before, with the allocator's code; ownership of zones holds in every case; past the range the call is refused, with EFBIG unless a double indirect block was asked for and there was no zone |
| MfsWrite.NewZone | Lab-10/mfs/write.c:276-300 | a free zone is hooked in for a hole, or nothing changes but empty indirect blocks and the zone is given back |
| MfsWrite.NewBlock | Lab-10/mfs/write.c:259-309 | the zeroed block of the position, a new zone if it was a hole, all other data kept; NO_BLOCK only if at most one zone of the volume is free, and then the map is as before |
| MfsWrite.FreeAllZones | Lab-10/mfs/write.c:140-190 | freeing every addressable file zone leaves all inode pointers NO_ZONE and exactly the zones of others in use |
| WriteMapSpec.SlotSet | Lab-10/mfs/write.c:168-170 | writing an entry of an indirect block maps that file zone and no other |
| WriteMapSpec.FreeSteps | Lab-10/mfs/write.c:140-185 | clearing an entry, then the single, then the double indirect block, as each becomes empty, keeps the map whole and unmaps one file zone |
| WriteMapSpec.FreedIsHole | Lab-10/mfs/write.c:63-68 | exactly when a free leaves a hole |
| WriteMapSpec.FreedNext | Lab-10/mfs/write.c:140-185 | the file zones freed so far stay free |
| WriteMapSpec.AllFreed | Lab-10/mfs/write.c:154-185 | a file with nothing mapped owns no zone at all, no indirect block either |
| WriteMapSpec.StaleDouble | Lab-10/mfs/write.c:83-99 | a double indirect block hooked in but not zeroed leaves the map whole exactly when its zone holds only zeros |
| WriteMapSpec.RefusedKeepsMap | Lab-10/mfs/write.c:83-99 | exactly when a refused write keeps the map whole for every outcome |
| WriteMapSpec.StaleDoubleExample | Lab-10/mfs/write.c:83-99 | with every geometry a volume on which a refused write breaks the map |
| FileBytes.AcquiredBytes | Lab-10/mfs/write.c:275-300 | acquiring a block changes no byte of the file outside that block |
| FileBytes.WrittenBytes | Lab-10/mfs/read.c:408-413 | bytes copied into a block are the file's bytes there and no other byte changes |
| MfsVolume.GetBlock | Lab-10/mfs/read.c:383-394 | an unread buffer may hold anything, all other blocks are untouched |
| FlatFile.ReadBack | Lab-10/mfs/read.c:177-198 | what was written is read back |
| FlatFile.WriteSplit | Lab-10/mfs/read.c:177-198 | a write in two parts is the write of the whole |
| FlatFile.EmptyWrite | Lab-10/mfs/read.c:204-208 | a write of no bytes leaves the file alone if and only if it is not past the end |
| FlatFile.WholeFileRead | Lab-10/mfs/read.c:135-161 | the answer to an immediate read is right if and only if it starts at 0 and asks for the whole file |
| MfsReadWrite.ReadChunk | Lab-10/mfs/read.c:359-407 | the file's bytes of one chunk, zeros from a hole |
| MfsReadWrite.WriteChunk | Lab-10/mfs/read.c:369-413 | the chunk is in the file; the rest of its block is as before or, where rw_chunk blanks it, zero; on failure the code is the allocator's, no byte changes and the block is missing; blocks of other files keep their contents |
| MfsReadWrite.RwChunk | Lab-10/mfs/read.c:314-419 | one chunk read or written; nothing of an unread buffer can be seen afterwards; blocks of other files keep their contents |
| MfsReadWrite.ChunkStep | Lab-10/mfs/read.c:399-402 | chunk by chunk the file holds the flat write of the data so far, also after promotion, when the size in the inode is 0 |
| MfsReadWrite.TransferChunks | Lab-10/mfs/read.c:177-198 | reading gives the flat read; writing gives the flat write of a prefix, all of it unless zones ran out, and then it ends where a block is missing, at the block's start if anything was written; blocks of other files keep their contents |
| MfsReadWrite.RemoveInodeEntry | Lab-10/mfs/read.c:233-242 | size 0 and no zone number left |
| MfsReadWrite.PromotedBytes | Lab-10/mfs/read.c:107-122 | the bytes copied into the first block are the whole file |
| MfsReadWrite.Promote | Lab-10/mfs/read.c:98-122 | the file is regular and has its old bytes if the volume was not full, and zeros only otherwise; blocks of other files keep their contents; the old bytes are there if and only if the volume was not full or they were all zero |
| MfsReadWrite.ImmediateWritten | Lab-10/mfs/read.c:162-173 | bytes copied straight into i_zone are the flat write |
| MfsReadWrite.WriteRegular | Lab-10/mfs/read.c:177-208 | the chunk loop and the new size together perform the flat write of the bytes reported; blocks of other files keep their contents |
| MfsReadWrite.WriteFile | Lab-10/mfs/read.c:72-208 | a write request: refused on a read-only volume or when too big, else the flat write of the bytes reported, which are all unless zones ran out; an immediate file stays immediate exactly up to byte 32; blocks of other files keep their contents |
| MfsReadWrite.ReadFile | Lab-10/mfs/read.c:126-198 | a read request gives the flat read (an immediate file: the whole file) and changes neither the disk nor the zones in use |
| MfsReadWrite.FsReadWrite | Lab-10/mfs/read.c:27-228 | both, with the position reported to the VFS server; a read or a refused write leaves the disk alone, and blocks of other files keep their contents |
| FileSession.Serve | Lab-10/mfs/read.c:27-228 | the reply to one request and the file after it, for regular and immediate files, refusals and promotion included; blocks of other files keep their contents |
| FileSession.Session | Lab-10/mfs/read.c:27-228 | any sequence of requests, from an immediate file on: each reply is one that the replay of the requests before it on a flat file calls for (all bytes written unless at most one zone is left, and then up to a block boundary; refusals with their codes; reads give the replay's bytes), the file holds the replay, and no block of another file changes |
| Dirents.Layout.RecLen | Lab-10/mfs/read.c:764-764 | the record length is a multiple of the alignment that covers head, name and NUL and less than one alignment more |
| Dirents.NameLen | Lab-10/mfs/read.c:756-761 | the length up to the first NUL, or the whole field |
| Dirents.ParseRecords | Lab-10/mfs/read.c:795-808 | a reader that walks over the records by d_reclen sees exactly the listed slots in order: file number, type, and a name of d_namlen bytes followed by a NUL within the record; the walk ends at the end |
| Dirents.WordsAreWide | Lab-10/mfs/read.c:795-798 | a struct dirent of 528 bytes with little-endian fields is such a layout: its four fields are read back |
| MfsDirectory.ListedSplits | Lab-10/mfs/read.c:752-809 | what a call lists and what the next call will see are exactly the slots in use: none skipped, none repeated; a call that lists nothing met a record that does not fit |
| MfsDirectory.PutRecord | Lab-10/mfs/read.c:795-808 | one record at the end of the temporary buffer; every byte but its own, its padding included, stays as it was |
| Dirents.PutOut | Lab-10/mfs/read.c:781-808 | one more record is put out after those before it, with zeros for padding if and only if the buffer is zero there |
| Dirents.FilledByte | Lab-10/mfs/read.c:733-808 | a byte of the temporary buffer is zero if and only if the last record that had something to say there put zero, or none had |
| Dirents.ExactIffClean | Lab-10/mfs/read.c:733-808 | all records of a call are padded with zeros if and only if that is so wherever a record has its padding |
| Dirents.CleanAtFirst | Lab-10/mfs/read.c:733-793 | they are while less than one temporary buffer has been used |
| Dirents.StaleListing | Lab-10/mfs/read.c:733-808 | every listing of 58 names of 60 bytes and then one of 55 shows a byte of its first name in its last record's padding |
| Dirents.LongNamesStale | Lab-10/mfs/read.c:733-808 | a directory with such a listing |
| MfsDirectory.TakeEntry | Lab-10/mfs/read.c:781-808 | one slot further the buffers are as the pure function of the listed slots says, copied out or not |
| MfsDirectory.SearchBlock | Lab-10/mfs/read.c:747-812 | the slots of one block are listed until the user's buffer is full |
| MfsDirectory.FsGetdents | Lab-10/mfs/read.c:700-841 | the records of exactly the listed slots, in order, byte for byte, with the exact condition for zero padding; for the caller: walking by d_reclen the bytes give the slots in use from the position on up to the next position, as many as leave a byte of the buffer free; ENOENT for a position between slots; EINVAL if and only if not one record fits |
| MfsDirectory.InUseIsAll | Lab-10/mfs/read.c:752-754 | the slots listed by a whole run are each slot in use once |
| MfsDirectory.CallProgress | Lab-10/mfs/read.c:769-779 | a call advances, or is at the end, or met a record too long for the buffer |
| MfsDirectory.ReadDirectory | Lab-10/mfs/read.c:700-841 | repeated calls end and succeed if and only if every record is shorter than the buffer; walking by d_reclen the bytes then give every slot in use once and in order |
| ProcTable.TestsAgree | Lab-02/part3/forkexit.c:484-486 | the child tests of do_waitpid and of wait_test agree if and only if the argument is not 0 |
| ProcTable.OwnGroup | Lab-02/part3/forkexit.c:471-486 | what qualifies for the argument made of the caller's group are the children in that group if and only if the group is more than 1; what wait_test takes, if and only if it is not 1 |
| ForkExit.CharOf | Lab-02/part3/forkexit.c:358-358 | the status kept is a signed byte congruent to the one given modulo 256 |
| ForkExit.ProcessManager.ArgumentSelects | Lab-02/part3/forkexit.c:471-486 | what the tests let through for the argument made of pid: the process with that pid; for 0 the caller's group, or any child in groups 0 and 1; for -1 any child; else the group of that number |
| ProcTable.QuietKeeps | Lab-02/part3/forkexit.c:656-656 | waking processes up or recording a kill keeps the invariant |
| ProcTable.StatusKeeps | Lab-02/part3/forkexit.c:577-590 | a change of the exit status flags of one process keeps the invariant, but for its own waiting parent |
| ProcTable.NobodyWaits | Lab-02/part3/forkexit.c:583-584 | a death reported to nobody is no lost wakeup if neither tracer nor parent waits |
| ProcTable.ExitKeeps | Lab-02/part3/forkexit.c:353-358 | a process may begin to exit: only its own children and tracees refer to a dying process |
| ProcTable.ReparentKeeps | Lab-02/part3/forkexit.c:373-387 | a child handed to INIT refers to a living parent; a zombie has to be reported again |
| ProcTable.UntraceKeeps | Lab-02/part3/forkexit.c:695-716 | a tracee without its tracer; a death that the tracer was to be told of becomes the parent's business |
| ProcTable.CleanKeeps | Lab-02/part3/forkexit.c:722-731 | a slot given up is nobody's parent and nobody's tracer |
| ProcTable.WaitKeeps | Lab-02/part3/forkexit.c:523-531 | a process that found nothing to collect may wait |
| ProcTable.ForkKeeps | Lab-02/part3/forkexit.c:83-108 | a new child of a living process keeps the invariant |
| ProcTable.AllInUse | Lab-02/part3/forkexit.c:66-71 | as many probes as slots visit every slot |
| ProcTable.CountFull | Lab-02/part3/forkexit.c:59-64 | the count of slots in use is the table's size if and only if all are in use |
| ProcTable.HistTold | Lab-02/part3/forkexit.c:637-659 | a report of a process not reported before keeps every status reported at most once, the one the process ended with, and to whoever forked it or to INIT after that one |
| ProcTable.HistCleaned | Lab-02/part3/forkexit.c:722-731 | giving up a reported slot keeps every slot given up once and after its report, and the count |
| ProcTable.HistExit | Lab-02/part3/forkexit.c:353-358 | a process that begins to exit had no status on record, and the one it gets is recorded for good |
| ProcTable.HistReparented | Lab-02/part3/forkexit.c:373-387 | a child goes to INIT only after the end of the process that forked it |
| ProcTable.HistBorn | Lab-02/part3/forkexit.c:85-87 | a new process is counted and its report is still to come |
| ProcTable.NoLostWakeup | Lab-02/part3/forkexit.c:479-531 | a waiting process has no matching child that is ZOMBIE and no matching tracee that is TRACE_ZOMBIE; a wait for group 0 matches children in group 0 |
| ForkExit.LoseWakeup | Lab-02/part3/forkexit.c:553-594 | in every state in which p waits with argument 0 and does not catch SIGCHLD, an untraced child outside process group 0 without children or tracees that exits without a core dump leaves p waiting, itself a zombie that qualifies for the wait, and nobody told |
| ForkExit.WaitForEachOther | Lab-02/part3/forkexit.c:471-486 | from a table at start-up, waitpid(0) by a caller in group 0 and the exit of its child reach a state in which both wait for each other |
| ProcTable.ReusedSlotHasNoChildren | Lab-02/part3/forkexit.c:366-388 | no process in use has a parent or tracer that is exiting or whose slot is free |
| ForkExit.ProcessManager.TellParent | Lab-02/part3/forkexit.c:637-659 | exactly the parent is woken and the child marked, one report; the panics are the preconditions |
| ForkExit.ProcessManager.TellTracer | Lab-02/part3/forkexit.c:664-683 | exactly the tracer is woken and the child handed on to its parent |
| ForkExit.ProcessManager.Cleanup | Lab-02/part3/forkexit.c:722-731 | only after the report and the VFS reply the slot is given up, once |
| ForkExit.ProcessManager.CheckParent | Lab-02/part3/forkexit.c:599-632 | nothing if the parent is exiting, a report (and cleanup) if it waits for this child, else no report |
| ForkExit.ProcessManager.Zombify | Lab-02/part3/forkexit.c:563-594 | the tracer first if it is not the parent and does not wait; else a report if the parent waits; else a zombie |
| ForkExit.ProcessManager.TracerDied | Lab-02/part3/forkexit.c:688-717 | a running tracee is to be killed, a dead one is reported to its parent, the rest only lose the tracer |
| ForkExit.ProcessManager.Reparent | Lab-02/part3/forkexit.c:373-387 | a child of the dead process is INIT's, and if it is a zombie INIT is looked at |
| ForkExit.ProcessManager.Disinherit | Lab-02/part3/forkexit.c:366-388 | after the loop nobody has the dead process as parent or tracer, the invariant holds again |
| ForkExit.ProcessManager.ExitProc | Lab-02/part3/forkexit.c:254-392 | a process ends: its status is placed unless a core dump is pending, children and tracees are handed over, INIT is spared, the invariant holds; an exit that concerns nobody changes its own slot only; the status is recorded, once |
| ForkExit.ProcessManager.ExitRestart | Lab-02/part3/forkexit.c:397-450 | after the VFS reply a reported process is cleaned up, any other is a zombie |
| ForkExit.ProcessManager.VfsReplied | Lab-02/part3/forkexit.c:397-450 | a reply resumes the exit with the dump flag of the request, or just ends a fork |
| ForkExit.ProcessManager.DoWaitpid | Lab-02/part3/forkexit.c:455-536 | collects the first collectable child or tracee that pid selects; else returns 0 or waits, with -group as argument for 0, if some candidate lives; else ECHILD. For pid 0 in a group above 1: the one collected is of that group, and ECHILD if and only if no unreported child or tracee is (a zombie tracee that is not a child does not count) |
| ForkExit.ProcessManager.FindSlot | Lab-02/part3/forkexit.c:66-74 | the first free slot after the last one used, within as many probes as slots: the panics cannot fire |
| ForkExit.ProcessManager.DoFork | Lab-02/part3/forkexit.c:44-135 | EAGAIN on a full table (or nearly, for a user), the error of VM, or exactly one new slot: the caller's child, in its group, with its tracer only if forks are to be traced, running once VFS has replied |
| ForkExit.ProcessManager.Run | Lab-02/part3/forkexit.c:254-731 | after any sequence of forks, exits, waits, VFS replies, attachments, interrupts: no lost wakeup, the dead are expected, relatives are alive, each status reported and each slot given up at most once and in that order, every status reported is the one its process ended with and went to the process that forked it or, after that one's end, to INIT, procs_in_use exact |
| ForkExit.ProcessManager.ValidIsSound | Lab-02/part3/forkexit.c:254-731 | the invariant implies those properties |
| BuddyTree.Apart | CS304-Assignment/200010004.cpp:249-250 | nodes not above one another have no address in common |
| BuddyTree.Aligned | CS304-Assignment/200010004.cpp:249-250 | a node starts at a multiple of its size |
| BuddyTree.UsedBelow | CS304-Assignment/200010004.cpp:172-226 | a node that is split has a held leaf below it |
| BuddyTree.ShapeIsNeeded | CS304-Assignment/200010004.cpp:172-226 | a node exists if and only if a held leaf needs it |
| BuddyTree.UsedDeterminesShape | CS304-Assignment/200010004.cpp:172-226 | trees with the same held leaves are the same tree |
| BuddyTree.LeavesTile | CS304-Assignment/200010004.cpp:249-262 | every address is in exactly one leaf |
| BuddyTree.FreeRegion | CS304-Assignment/200010004.cpp:233-275 | an aligned region with no held leaf in it lies in one free leaf |
| BuddyTree.OrderDetermines | CS304-Assignment/200010004.cpp:54-64 | a list in the order of compareBlocks is determined by its members |
| BuddyTree.SizeBound | CS304-Assignment/200010004.cpp:245-246 | when splitting stops the block is at most twice the request, or of the least size |
| BuddyTree.TightFit | CS304-Assignment/200010004.cpp:245-266 | for a block cut as the loop cuts it, half would have served exactly for a power of two no smaller than the least size cut from a larger block |
| BuddyTree.RegionIsNode | CS304-Assignment/200010004.cpp:249-250 | every region of a power of two that begins at a multiple of its size is a node |
| BuddySystem.Buddies.constructor | CS304-Assignment/200010004.cpp:77-85 | one free root of the whole memory |
| BuddySystem.Buddies.ComparesAs | CS304-Assignment/200010004.cpp:54-64 | compareBlocks is the order of sizes, then of falling addresses, and of the nodes |
| BuddySystem.Buddies.FreeListOrder | CS304-Assignment/200010004.cpp:54-64 | sizes never fall along the free list, and of two blocks of one size the later lies wholly below the earlier |
| BuddySystem.Buddies.LowerBound | CS304-Assignment/200010004.cpp:219-262 | all entries before the position compare below, the one at it does not |
| BuddySystem.Buddies.Insert | CS304-Assignment/200010004.cpp:219-262 | a block inserted there keeps the list exactly the free leaves in order |
| BuddySystem.Buddies.Split | CS304-Assignment/200010004.cpp:246-258 | a block gets two halves; tiling, links and ownership hold |
| BuddySystem.Buddies.Join | CS304-Assignment/200010004.cpp:182-212 | whichever way the swap goes, the parent loses both halves and nothing else changes |
| BuddySystem.Buddies.GetBuddy | CS304-Assignment/200010004.cpp:278-295 | the other half of the parent, none for the root |
| BuddySystem.Buddies.JoinOrStop | CS304-Assignment/200010004.cpp:172-226 | a free buddy is joined, else the block goes on the free list; no two free siblings remain |
| BuddySystem.Buddies.ReleaseProcess | CS304-Assignment/200010004.cpp:153-230 | exactly this pid loses its block, the invariant holds; an unknown pid changes neither tree nor list |
| BuddySystem.Buddies.FindFreeBlock | CS304-Assignment/200010004.cpp:233-275 | refused only if every free leaf is too small and then nothing changes; else a block that fits the request, cut from the smallest free leaf that does |
| BuddySystem.Buddies.SplitDown | CS304-Assignment/200010004.cpp:245-266 | splitting keeps the start and stops at a block large enough, at most twice the request or of the least size, and larger than the request if the block split was |
| BuddySystem.Buddies.HalvedTooSeldom | CS304-Assignment/200010004.cpp:245-266 | the block given out could be halved once more exactly for a request that is a power of two, no smaller than the least size, and smaller than the smallest free block that fits |
| BuddySystem.LooseBlock | CS304-Assignment/200010004.cpp:245-266 | from a free memory of 4 with least size 1 a request for 2 gets all 4 |
| BuddySystem.Buddies.AllocateProcess | CS304-Assignment/200010004.cpp:121-150 | exactly this pid gets a block with request ≤ size ≤ max(2·request, least), at the start of the highest of the smallest free blocks that fit, or nothing changed because none fits |
| BuddySystem.Buddies.HeldDetermineState | CS304-Assignment/200010004.cpp:121-230 | the same blocks held means the same tree and free list |
| BuddySystem.Buddies.WholeWhenUnused | CS304-Assignment/200010004.cpp:153-230 | when nobody holds memory the free list is the root |
| BuddySystem.Buddies.RefusedOnlyIfNoRegion | CS304-Assignment/200010004.cpp:233-275 | a refused request could not have been met by any node |
| BuddySystem.Buddies.RefusedEverywhere | CS304-Assignment/200010004.cpp:233-275 | nor by any addresses: every aligned region of a power of two large enough has a held address in it |
| BuddySystem.Buddies.HeldApart | CS304-Assignment/200010004.cpp:121-138 | blocks of different processes are disjoint and no smaller than the least size |
| BuddySystem.Buddies.AllocateAndRelease | CS304-Assignment/200010004.cpp:121-230 | allocating and releasing restores tree and free list |
| BuddySystem.Buddies.ProcessRequests | CS304-Assignment/200010004.cpp:103-118 | any orderly run of requests keeps the invariant, and the holders alone determine the result |
| Replacement.StepKeeps | Lab-08/200010004_lru.cpp:66-87 | a page is never queued twice, never more pages than frames, the referenced page is resident |
| Replacement.WindowBound | Lab-08/200010004_fifo.cpp:56-79 | over a window with at most k distinct pages LRU and FIFO fault at most once a page, whatever was resident |
| Replacement.Competitive | Lab-08/200010004_fifo.cpp:56-79 | from a cold start neither faults more than k times as often as any schedule with k frames |
| FifoOrder.NextFault | Lab-08/200010004_fifo.cpp:56-79 | a reference is a fault exactly if its page is not that of any of the last k faults, and a hit changes nothing |
| FifoOrder.FifoHoldsLastFaults | Lab-08/200010004_fifo.cpp:56-79 | from a cold start FIFO holds the pages of its last k faults, or of all if there were fewer, in the order of the faults |
| FifoOrder.FaultsUnique | Lab-08/200010004_fifo.cpp:56-79 | the positions of the faults are determined by that |
| LruStack.RecencyMeaning | Lab-08/200010004_lru.cpp:54-64 | the recency list holds every page referenced once, in order of last use |
| LruStack.LruHoldsMostRecent | Lab-08/200010004_lru.cpp:48-88 | LRU holds the k most recently used pages, in that order |
| LruStack.StackProperty | Lab-08/200010004_lru.cpp:48-88 | with fewer frames LRU holds a suffix, so more frames never fault more often |
| LruStack.FifoAnomaly | Lab-08/200010004_fifo.cpp:56-79 | a string on which FIFO faults 9 times with 3 frames and 10 times with 4 |
| LruStack.EnoughFrames | Lab-08/200010004_fifo.cpp:56-79 | with a frame for every page either policy faults once a page, and with any number of frames at least that often |
| LruStack.OneFrame | Lab-08/200010004_fifo.cpp:56-79 | with one frame either policy faults at least as often as with more |
| LruLoop.EraseFirst | Lab-08/200010004_lru.cpp:56-63 | the scan removes the page's one entry |
| LruLoop.Reference | Lab-08/200010004_lru.cpp:50-87 | one turn is one LRU step, in_memory and the queue hold the same pages, a fault exactly for a page not held |
| LruLoop.Lru | Lab-08/200010004_lru.cpp:44-92 | the loop counts the faults of LRU; faults and hits add up to the references |
| FifoLoop.Fifo | Lab-08/200010004_fifo.cpp:48-82 | the loop counts the faults: the references whose page is not that of any of the last numFrames faults before; faults and hits add up to the references |
| SjfSpec.InsertSorts | Lab-04/200010004_sjf.cpp:10-10 | the priority queue gives out the least burst, then the least pid, and loses nothing |
| SjfSpec.ArriveKeeps | Lab-04/200010004_sjf.cpp:94-103 | those that arrive enter one place each, the books stay right |
| SjfSpec.StartCpuKeeps | Lab-04/200010004_sjf.cpp:104-118 | dispatching moves one process and charges its burst |
| SjfSpec.StartIoKeeps | Lab-04/200010004_sjf.cpp:119-128 | the same for the I/O device |
| SjfSpec.WorkKeeps | Lab-04/200010004_sjf.cpp:129-136 | a tick is a tick of service on a device or a tick of waiting in a queue, for every process |
| SjfSpec.IoToReady | Lab-04/200010004_sjf.cpp:138-152 | after I/O a process is in the priority queue only |
| SjfSpec.CpuToIo | Lab-04/200010004_sjf.cpp:174-183 | after a processor burst it is in the I/O queue only |
| SjfSpec.CompleteKeeps | Lab-04/200010004_sjf.cpp:191-194 | the waiting time computed at the end is the ticks spent in the queues |
| SjfSpec.EndIoKeeps | Lab-04/200010004_sjf.cpp:138-172 | the books are right after the I/O device was looked at, also when the loop is left |
| SjfSpec.EndCpuKeeps | Lab-04/200010004_sjf.cpp:174-208 | the same for the processor |
| SjfRun.StepKeeps | Lab-04/200010004_sjf.cpp:91-209 | every turn keeps the books, and work or the time to the last arrival decreases |
| SjfRun.SomebodyToCome | Lab-04/200010004_sjf.cpp:91-209 | an idle tick means somebody is still to arrive |
| SjfRun.Finish | Lab-04/200010004_sjf.cpp:88-209 | the loop ends, with both queues empty and the books right |
| SjfRun.StepDue | Lab-04/200010004_sjf.cpp:91-209 | no burst is lost or given twice |
| SjfRun.LoopResult | Lab-04/200010004_sjf.cpp:193-206 | at the end a finished process got exactly its bursts, turnaround is service plus time queued, the wait reported is the time queued, response at most that; unfinished are exactly those that have not come and those on a device other than the one whose burst was just over |
| SjfOrder.SortedIsLeast | Lab-04/200010004_sjf.cpp:104-118 | of all orders of the same bursts the sorted one has the least sum of starting times |
| SjfOrder.PausesCost | Lab-04/200010004_sjf.cpp:104-118 | pauses between the bursts only add to it |
| SjfOrder.EndedBusily | Lab-04/200010004_sjf.cpp:174-207 | without I/O the loop is left at the first tick at which all work that has come is done, no earlier and no later |
| SjfOrder.FinishedHaveCome | Lab-04/200010004_sjf.cpp:203-206 | without I/O exactly those that have come by then are finished |
| SjfOrder.AllFinishedIffNoGap | Lab-04/200010004_sjf.cpp:203-206 | all are finished if and only if the work never runs out before the last arrival |
| SjfOrder.LateProcessIsLost | Lab-04/200010004_sjf.cpp:203-206 | two processes, the second of which never runs |
| SjfCpu.EndCpuPaced | Lab-04/200010004_sjf.cpp:174-208 | with short I/O the end of a processor burst ends the loop only while the I/O device is idle |
| SjfCpu.CpuBoundFinishes | Lab-04/200010004_sjf.cpp:88-209 | everyone ending with a processor burst, no I/O burst longer than any processor burst, any arrivals: unfinished are exactly those that come after the end of the loop |
| SjfCpu.CoveredFinishes | Lab-04/200010004_sjf.cpp:203-206 | and none is, if at every tick from the first arrival to the last somebody has come who cannot be done by its end |
| SjfCpu.FileFinishes | Lab-04/process1.dat:4-10 | so every process of this input file finishes |
| SjfIo.StopsWhileBusy | Lab-04/200010004_sjf.cpp:203-206 | two processes, one of which is on the I/O device when the other ends the loop |
| SjfIo.StopsAtLastIo | Lab-04/200010004_sjf.cpp:138-168 | the loop is left there if and only if a last I/O burst is over and nobody is queued; a process on the processor then stays unfinished |
| SjfIo.StopsAtLastCpu | Lab-04/200010004_sjf.cpp:174-205 | otherwise it is left exactly at the end of a last processor burst with nobody queued; a process on the I/O device then stays unfinished |
| SjfIo.IoBoundFinishes | Lab-04/200010004_sjf.cpp:88-209 | all at tick 0, everyone ending with I/O, every I/O burst longer than every processor burst: all are finished |
| SjfBest.FinishOutlook | Lab-04/200010004_sjf.cpp:104-208 | the sum of waiting times is settled by the sorted queue from the start |
| SjfBest.ShortestFirstIsBest | Lab-04/200010004_sjf.cpp:94-208 | all at tick 0 with one burst: all are finished and no order of service, with pauses or without, has a smaller sum of waiting times |
| SjfSpec.DispatchesLeast | Lab-04/200010004_sjf.cpp:104-118 | of all that are ready the processor gets the one with the least burst, then the least pid |
| SjfLog.StartIoLedger | Lab-04/200010004_sjf.cpp:119-128 | taking up the first of the I/O queue keeps the log: the bursts taken up are still in the order of the processor bursts before them |
| SjfLog.EndCpuLedger | Lab-04/200010004_sjf.cpp:174-208 | the I/O bursts taken up, those queued and the one to come are, in order, those that follow the processor bursts served |
| SjfLog.FinishLedger | Lab-04/200010004_sjf.cpp:88-209 | that and the times of service hold over a whole run |
| SjfLog.RunIsConsistent | Lab-04/200010004_sjf.cpp:88-209 | of a whole run: each process is served its bursts in their order, processor and I/O in turns and one after the other; response is the time of its first service less its arrival, turnaround the end of its last; each device serves one burst at a time, and I/O bursts are served in the order of the processor bursts before them |
| Sjf.Simulator.Tick | Lab-04/200010004_sjf.cpp:91-209 | one turn of the loop is one step of the specification |
| Sjf.Simulator.StartEvent | Lab-04/200010004_sjf.cpp:88-209 | the loop ends in the state the specification ends in, and the devices took up what its log says |
| Sjf.Simulate | Lab-04/200010004_sjf.cpp:88-209 | what is reported for each process, by the log of services: order of each process's bursts, I/O first come first served, response and turnaround; the conditions for all to be finished, and the least waiting, for one run of the simulator |

## Left out

- Special files, pipes, PEEKING, `fs_breadwrite`, read-ahead, inode times and the dirty marks of buffers: no effect on the map or the bytes of a file.
- Failing copies to and from the user, disk errors and the server's panics on corrupt blocks: copying succeeds and blocks are those of a consistent volume.
- Wrap-around of `s_max_size - nrbytes` and of positions beyond 32 bits: sizes and positions are unbounded numbers.
- Truncation itself is not in the sources; `FreeAllZones` is the run of `WMAP_FREE` calls it would make.
- MfsReadWrite.ReadFile: gives an immediate file whole, as the code does, not the range asked for.
- MfsReadWrite.Promote: on a full volume the old contents are gone, as in the code.
- MfsReadMap.ReadMap: what the server does after reading past the double indirect block is not described.
- MfsReadMap.MappedZone: the same holds of the zone it gives there.
- MfsDirectory.FsGetdents: the layout of struct dirent is a parameter, the type of an entry's inode too (a byte), file numbers have 32 bits, and blocks are given as slots, not looked up through the zone map.
- Lab-02: memory, scheduling, time accounting, timers, core files, ptrace stop signals, SIGHUP to a session and `do_srv_fork`; pids are chosen by the environment.
- ForkExit.ProcessManager.SigChld: the signal interrupts a wait if it is caught and does nothing else; sig_proc is not part of this model.
- ForkExit.ProcessManager.DoWaitpid: a tracee that is stopped with a signal pending is not reported to its tracer (forkexit.c:497-509), because stop signals are not modelled.
- ForkExit.ProcessManager.SigKill: records the kill, which arrives later as an exit of the process; the server may exit it at once, inside the exit of its tracer.
- ProcTable.NoLostWakeup: for a wait argument of 0 only children in process group 0 are covered; for others it is false (`LoseWakeup`).
- That a waiting process is woken at all depends on children ending; nothing is claimed about it. The serial numbers and the records of reports, cleanups, exit statuses and forks are not in the server.
- Buddy: printing, file parsing, `sfileRead`, `clear`, and the null entry a release of an unknown pid leaves in the map is kept but means nothing. Merged nodes are not deallocated in the program either.
- Paging: reading the reference file; the frame numbers stored in `in_memory` are never used and only the keys matter.
- SJF: output, averages, the penalty ratio and btime_total (floating point), the unused iocheck. The arrival table is a scan of the arrival times in pid order.
- SjfIo.IoBoundFinishes: a sufficient condition, of inputs that are not like the program's own, which `CpuBoundFinishes` is for; an exact condition on the input for everyone to finish is given only for workloads without I/O.
- SjfCpu.CpuBoundFinishes: says who is unfinished by the tick at which the loop ended, not by the input alone; process3.dat has I/O longer than some processor bursts and is not covered.
- The image filters, the other schedulers and kernel changes, the VFS changes, the address translation scripts, random replacement and the benchmarks: single-branch facts, unfinished code or code over parts that are not in the repository.
