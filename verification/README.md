# A verified model of the Nachos kernel and machine

This project models the parts of Nachos (the teaching operating system, its simulated MIPS
machine, and the student kernel on top) whose correctness is an argument about many steps rather
than one function, and proves that argument. `dafny verify dfyconfig.toml` checks all of it.

| area | modules |
|---|---|
| demand paging | `Paging` (the state as a value), `UserMemory` (the flat memory the program sees), `AddrSpaces` (the classes that update page table, frames and store in place), `BitMaps`, `Bits`, `Bytes` |
| file system | `OpenFiles`, `DiskFormat` (byte images), `Volumes` (who owns which sector), `Directories`, `FileSystems`, `Sessions` (whole sessions against a map from names to bytes) |
| threads and synchronization | `Synch` (semaphores, locks, conditions as a step system), `Mailboxes`, `SynchLists`, `SynchDisks`, `Threads` (dispatcher, Join), `ThreadMoves` (what each step does to each thread), `Carcasses` (who is destroyed, and who never is), `Lists`, `ReadyLists` |
| CPU | `InstructionSet` (the words), `Meanings` (what each instruction does, in arithmetic), `Multiplier`, `Cpu` (the simulator), `DelaySlots` (exactly which instructions restart precisely), `Programs` and `UserPrograms` (whole programs, on values and on the paged machine) |
| time, devices, network | `Interrupts`, `DiskTiming`, `PostOffices` |
| shared | `Wrappers` |

## How the model is built

- Objects whose methods update fields are classes with `modifies` clauses; each method is tied to
  a function or relation on values, and the properties are proved there. Page tables, bitmaps,
  main memory, the backing file, the disk and I/O buffers are arrays; the list is made of linked
  elements.
- Threads are a step system. A primitive runs with interrupts off up to its next `Sleep`, so it is
  one step; between steps any thread may run (wakeups are Mesa style). The place at which a
  sleeper enters a wait queue depends on thread priorities; it is left open, so the results hold
  for every assignment of priorities.
- Device times, page contents of the executable, lost packets, the order of interrupts and what
  interrupt handlers do are parameters of the statements, which hold for all of them.
- C integers are unbounded integers with the 32-bit wrap-around written out where it matters
  (`Multiplier`, `Cpu`, `Bits`, `UserMemory`). Structures cast to `char *` are encodings with a
  decoding and a round trip.
- Sizes that the proofs do not need stay symbolic: number of pages, frames, sectors, directory
  entries, threads, machines, boxes. Disk timing uses the constants of `stats.h` and `disk.h`.

## Main results

1. **Paging is invisible, to a whole program.** `AddrSpaces.AddrSpace.Run`: any run of 1, 2 and 4 byte
   loads and stores, with faults, clock evictions and write-back, answers as one flat byte array
   would. `UserPrograms.RunProgram`: a MIPS program run on that memory, with faults at fetch and data
   and restarted instructions, does what the same program does on the flat array, up to the
   load-delay condition of result 4. The array is unique when the executable supplies each page not
   yet loaded (`UserMemory.FlatUnique`), and before the program runs it is the program's image, byte
   by byte (`AddrSpaces.AddrSpace.constructor`).
2. **The file system is a map from names to bytes.** `Sessions.FormatAndRun`: after formatting any disk,
   every sequence of Create, Remove, reads and writes, failures included, gives the answers of a
   reference that holds the files' bytes and counts free sectors and directory entries. Underneath,
   `FileSystems.FileSystem.Create` and `Remove` succeed exactly under stated conditions and keep the
   invariant that the on-disk free map marks exactly the sectors with an owner, each with one owner.
3. **Synchronization loses no wakeup.** `Synch.NoLostWakeup`, `Synch.MutualExclusion`,
   `Synch.SemaphoreCounts`, `Mailboxes.NeverStranded`, `SynchLists.BlockingQueue`,
   `SynchDisks.Synchronous` (the calls are linearizable), `Threads.AlwaysOnePlace`,
   `Threads.NotDestroyedEarly`. What the histories in these statements record is tied to the calls
   made in a run (`Mailboxes.CallsAccountedFor`, `SynchLists.CallsAccountedFor`,
   `SynchDisks.AnswersTheCalls`).
4. **The CPU.** `Meanings.OneInstructionMeans`: every word fetched does what the instruction it stands
   for means, on all registers and memories: values, overflow, next PC, pending load, memory bytes,
   and every trap. `Multiplier.Mult` is the exact 64-bit product for all operands. `Cpu.PreciseRestart`: an
   instruction that avoids the register of the pending load, restarted after page faults, ends as if
   there had been none. `DelaySlots.RestartIff` says for every instruction word whether it restarts
   precisely: if and only if it avoids that register or is one of the degenerate forms of
   `DelaySlots.Degenerate` (SUBU of a register with itself, say), whose result does not depend on it.
5. **Time.** `Interrupts.RunInv` (handlers in due order, never early, each interrupt called once, ticks
   add up), `Interrupts.RunSchedules` (exactly what was asked for is scheduled),
   `DiskTiming.LatencyIs` and `DiskTiming.RunHits`.
6. **Mail.** `PostOffices.MailInOrder`: over a lossy network each box holds an in-order subsequence of
   the mail sent to it, intact; `PostOffices.MailGoesForward`: what the network kept reaches its box.

## Where code and comments differ

- `Thread::Finish` says that `Scheduler::Run` destroys the thread that finished. A thread
  dispatched for the first time starts at its root and not inside `Run`, so the carcass is destroyed
  by a switch if and only if the next thread has run before (`Carcasses.BuriedIff`). If another thread
  finishes first it is forgotten (`Carcasses.CarcassFate`), and then it stays for good
  (`Carcasses.ForgottenForever`); `Carcasses.FirstIsForgotten` is a run in which that happens. The
  model does what the code does.
- `Interrupt::Idle` can return with the time-slice timer still due, exactly when the timer is all that
  is left in the queue (`Interrupts.DrainStops`, `Interrupts.IdleStops`);
  `Interrupts.IdleLeavesTheTimer` is such a case.
- `FileHeader::Allocate` does not compare the size with MaxFileSize: where there are enough clear
  sectors for a larger file it stores past the end of its array. `Directories.Allocate` and
  `FileSystems.FileSystem.Create` say exactly when (`overrun`); a session ends there.
- `OR` computes rs | rs, and SRL and SRLV shift arithmetically; the model does the same, and counts rs
  alone as read by OR.
- A page only partly supplied by the executable keeps bytes of the frame's previous user; the
  contents are determined if and only if the whole page is supplied
  (`Paging.FirstLoadDetermined`).

## Model

| member | source | states |
|---|---|---|
| `AddrSpaces.AddrSpace.Run` | code/userprog/addrspace.cc:141-239 | Any sequence of loads and stores gives the outcomes of one flat byte array that agreed with the memory at the start, whatever is evicted on the way. |
| `AddrSpaces.AddrSpace.LoadAccess` | code/machine/translate.cc:91-127 | A load restarted after its page fault returns the value in the flat array; the arrays that describe memory afterwards described it before. |
| `AddrSpaces.AddrSpace.StoreAccess` | code/machine/translate.cc:142-175 | A store changes exactly the addressed bytes of the flat array; a bad address changes nothing. |
| `AddrSpaces.AddrSpace.ReadMem` | code/machine/translate.cc:91-127 | Address error exactly on misaligned or out-of-range addresses, page fault exactly on invalid pages, else the bytes of the page that the state stands for. |
| `AddrSpaces.AddrSpace.WriteMem` | code/machine/translate.cc:142-175 | The same three cases; a successful write changes one page and sets its use and dirty bits. |
| `AddrSpaces.Machine.Translate` | code/machine/translate.cc:192-261 | With a page table: address error, page fault, read-only and bus error each exactly in its case, leaving the table alone; else the physical address lies in the frame of the page, inside memory, and the entry's use bit, and on a write its dirty bit, are all that changes. |
| `AddrSpaces.Machine.TranslateByTlb` | code/machine/translate.cc:192-261 | The same with a TLB: the first valid entry for the page is used, and a page fault is raised exactly if there is none. |
| `AddrSpaces.AddrSpace.constructor` | code/userprog/addrspace.cc:91-138 | Initially no page is resident or loaded and the invariant holds, for any position of the clock hand in range; and the flat memory is the image of the executable: byte a of a page is the one the segment covering the page's start has for it in the file, as far as the file reaches, and 0 where neither segment does. |
| `AddrSpaces.AddrSpace.DemandPage` | code/userprog/addrspace.cc:141-239 | Always brings the page in: the final ASSERT(FALSE) is unreachable, the invariant holds, every page keeps its contents, and a page loaded for the first time holds, byte by byte, what the image of the program says. |
| `AddrSpaces.AddrSpace.TakeFrame` | code/userprog/addrspace.cc:146-200 | A frame is found, after clearing a page if there was none: the allocation after ClearPage succeeds. |
| `AddrSpaces.AddrSpace.ClearPage` | code/userprog/addrspace.cc:313-336 | The clock's victim is evicted and only use bits of passed entries change besides. |
| `AddrSpaces.AddrSpace.Sweep` | code/userprog/addrspace.cc:313-336 | The clock loop ends from any hand position when some page is valid; the victim is the clock's choice. |
| `AddrSpaces.AddrSpace.ClearState` | code/userprog/addrspace.cc:304-311 | After it no frame is handed out any more. |
| `AddrSpaces.AddrSpace.PageOut` | code/userprog/backingstore.cc:16-36 | The entry becomes invalid, its frame is free, and the store gets the frame's bytes exactly if the page was dirty. |
| `AddrSpaces.AddrSpace.PageIn` | code/userprog/backingstore.cc:38-48 | The frame gets the store's copy, and the entry is valid and clean. |
| `AddrSpaces.MemoryManager.AllocPage` | code/userprog/memmanage.cc:10-19 | Hands out a frame that was free, or fails exactly when all frames are taken. |
| `AddrSpaces.MemoryManager.FreePage` | code/userprog/memmanage.cc:26-29 | Frees that frame and no other. |
| `Paging.EvictInv` | code/userprog/backingstore.cc:16-36 | Eviction keeps the invariant (frames conserved and not shared, clean pages equal to their copy) and the contents of every loaded page. |
| `Paging.InstallInv` | code/userprog/addrspace.cc:146-200 | Mapping a page into a frame that was free keeps the invariant. |
| `Paging.PagedInAgrees` | code/userprog/addrspace.cc:141-239 | Paging in does not change the flat memory. |
| `Paging.FullMeansEvictable` | code/userprog/addrspace.cc:146-200 | If every frame is taken, some page is valid and can be evicted. |
| `Paging.FirstLoadDetermined` | code/userprog/addrspace.cc:206-231 | The contents of a first-loaded page are independent of the frame's last user if and only if the executable supplies the whole page. |
| `Paging.FreshIsImage` | code/userprog/addrspace.cc:203-231 | Before any page is loaded, a flat array fits the state if and only if it is an image of the executable. |
| `Paging.FirstLoadIsImage` | code/userprog/addrspace.cc:203-231 | After a first load the page holds what the image says. |
| `Paging.LoadIsImage` | code/userprog/addrspace.cc:203-231 | The bytes a first load takes: position inFileAddr + (a - virtualAddr) of the file for virtual address a. |
| `Paging.ClockChoiceUnique` | code/userprog/addrspace.cc:313-336 | Victim and length of the sweep are functions of page table and hand. |
| `Paging.ClockBound` | code/userprog/addrspace.cc:313-336 | The sweep passes fewer than twice as many entries as there are pages, and a full lap only when every valid page had been used. |
| `Paging.ClockVictim` | code/userprog/addrspace.cc:313-336 | Outside FIFO mode the victim's use bit is clear, and every valid page passed over had its bit set and has it clear now. |
| `Paging.AllFrames` | code/userprog/addrspace.cc:304-311 | Every frame handed out belongs to a valid entry. |
| `UserMemory.LoadAgrees` | code/machine/translate.cc:91-127 | Load, fault, retry: the value read is the flat array's, and the array is the same before and after. |
| `UserMemory.StoreAgrees` | code/machine/translate.cc:142-175 | Store, fault, retry: the flat array after is the one before with the bytes spliced in. |
| `UserMemory.StoreLoad` | code/machine/translate.cc:91-175 | A value stored and loaded again with the same size comes back cut to the width: bytes sign-extended, shorts zero-extended, words unchanged. |
| `UserMemory.FlatUnique` | code/userprog/addrspace.cc:202-231 | When each page is loaded or wholly in the executable, only one flat array fits the state. |
| `UserMemory.SomeFlat` | code/userprog/addrspace.cc:202-231 | Every paged state stands for some flat array. |
| `BitMaps.BitMap.Mark` | code/userprog/bitmap.cc:46-51 | Marks that item in the packed words and no other. |
| `BitMaps.BitMap.Clear` | code/userprog/bitmap.cc:60-65 | Clears that item and no other. |
| `BitMaps.BitMap.Test` | code/userprog/bitmap.cc:74-83 | Membership in the set of marked items. |
| `BitMaps.BitMap.Find` | code/userprog/bitmap.cc:94-103 | First fit: marks the least clear item, or fails exactly when there is none. |
| `BitMaps.BitMap.NumClear` | code/userprog/bitmap.cc:111-119 | The number of clear items. |
| `OpenFiles.OpenFile.ReadAt` | code/filesys/openfile.cc:116-144 | The slice of the file at the position, clipped at end of file. |
| `OpenFiles.OpenFile.WriteAt` | code/filesys/openfile.cc:146-186 | The file's bytes are spliced with the data, clipped at end of file, and no sector outside the touched range changes, aligned or not. |
| `OpenFiles.OpenFile.Read` | code/filesys/openfile.cc:74-80 | Reads at the seek position and moves it by what was read. |
| `OpenFiles.OpenFile.Write` | code/filesys/openfile.cc:82-88 | Writes at the seek position and moves it by what was written. |
| `OpenFiles.BufferPrepared` | code/filesys/openfile.cc:161-178 | With the partial first and last sectors read in and the data on top, the buffer holds exactly what the new file has there. |
| `OpenFiles.WrittenFile` | code/filesys/openfile.cc:180-183 | Writing the buffer's pieces to the touched sectors makes the file the spliced file; the header's sectors are distinct. |
| `DiskFormat.WordsRoundTrip` | code/userprog/bitmap.cc:148-165 | Word arrays written to a file read back equal. |
| `DiskFormat.HeaderRoundTrip` | code/filesys/filehdr.cc:77-94 | A file header written to its sector reads back equal. |
| `DiskFormat.TableRoundTrip` | code/filesys/directory.cc:63-80 | A directory table written to its file reads back equal. |
| `Directories.Directory.FindIndex` | code/filesys/directory.cc:90-97 | The first entry in use whose name agrees on 9 characters, or -1 exactly if there is none. |
| `Directories.Directory.Add` | code/filesys/directory.cc:129-143 | Fails exactly on a known name or a full table; else fills one free entry and no other. |
| `Directories.Directory.Remove` | code/filesys/directory.cc:153-162 | Fails exactly on an unknown name; else frees its entry and no other. |
| `Directories.Allocate` | code/filesys/filehdr.cc:41-52 | Fails, changing nothing, exactly when there are too few clear sectors; stores past its array exactly when there are enough but the header has no room for them; else takes that many distinct clear sectors. |
| `Directories.Deallocate` | code/filesys/filehdr.cc:61-68 | Its ASSERT holds and exactly the file's data sectors become clear. |
| `Volumes.StoredKey` | code/filesys/directory.cc:90-143 | A name stored with strncpy is found under exactly the names that agree on the first 9 characters. |
| `Volumes.KeyIff` | code/filesys/directory.cc:90-97 | Two names count as equal exactly when strncmp finds their first 9 characters equal, as far as the first NUL. |
| `Volumes.AddFileInv` | code/filesys/filesys.cc:174-215 | Creating a file keeps the ownership partition and the unique names. |
| `Volumes.RemoveFileInv` | code/filesys/filesys.cc:257-288 | Removing a file keeps them too. |
| `Volumes.AddRemove` | code/filesys/filesys.cc:257-288 | Removing the file just created restores the free map and all ownership. |
| `Volumes.AddNames` | code/filesys/filesys.cc:174-215 | Create adds exactly the new file to the name space. |
| `Volumes.RemoveNames` | code/filesys/filesys.cc:257-288 | Remove takes exactly the named file out of it. |
| `Volumes.RunIsMap` | code/filesys/filesys.cc:174-288 | After any sequence of successful Creates and Removes on an empty volume every sector has one owner, exactly the owned ones are marked, and the directory is the map that the calls describe. |
| `FileSystems.FileSystem.Create` | code/filesys/filesys.cc:174-215 | Fails, leaving the disk as it was, exactly if the name is known, the directory is full or header and data do not fit on the disk; otherwise a file of at most MaxFileSize is added on disk, the invariant kept and no other file touched, and a larger one overruns its header. |
| `FileSystems.FileSystem.Remove` | code/filesys/filesys.cc:257-288 | Succeeds exactly if the name is known; entry and sectors are given up on disk, no other file is touched. |
| `FileSystems.FileSystem.Open` | code/filesys/filesys.cc:227-241 | The file of that name with its own header, or NULL exactly if there is none. |
| `FileSystems.FileSystem.Mounted` | code/filesys/filesys.cc:130-143 | The system files of a formatted disk are opened and the invariant holds of what is found. |
| `FileSystems.Format` | code/filesys/filesys.cc:80-128 | Whatever the disk held, it now holds an empty volume satisfying the invariant, with the two system files owning their sectors. |
| `FileSystems.Created` | code/filesys/filesys.cc:174-215 | The bytes that Create writes denote the volume with the file added. |
| `FileSystems.Removed` | code/filesys/filesys.cc:257-288 | The bytes that Remove writes denote the volume without the file. |
| `FileSystems.WriteKeepsVolume` | code/filesys/openfile.cc:146-186 | Writing through an open file changes that file's bytes only: map, directory, headers and other files stay. |
| `FileSystems.FormattedDisk` | code/filesys/filesys.cc:80-128 | The bytes written by formatting denote an empty volume. |
| `Sessions.Perform` | code/filesys/filesys.cc:174-288 | Each call on the disk, successful or not, is a step of the reference (names to bytes, number of free sectors and entries), and the disk holds the reference again. |
| `Sessions.Run` | code/filesys/filesys.cc:174-288 | So is any sequence of calls, up to the first overrun. |
| `Sessions.FormatAndRun` | code/filesys/filesys.cc:80-288 | From a disk with any contents: format it, then any sequence of calls is a run of the reference from no files, all entries free, and all sectors free but those of the two system files. |
| `Sessions.FormatFresh` | code/filesys/filesys.cc:80-128 | The freshly formatted disk holds that reference. |
| `Sessions.MadeHolds` | code/filesys/filesys.cc:174-215 | Create takes one header sector, the sectors of the data and one entry, and gives the reference one file. |
| `Sessions.DeletedHolds` | code/filesys/filesys.cc:257-288 | Remove returns all of them. |
| `Sessions.WroteHolds` | code/filesys/openfile.cc:146-186 | A write through an opened file splices that file's bytes in the reference and nothing else. |
| `Synch.StepInv` | code/threads/synch.cc:64-210 | Every primitive keeps the counting invariants of semaphores, locks and conditions. |
| `Synch.NoLostWakeup` | code/threads/synch.cc:64-210 | In every run, with any locks passed to any condition: sleepers on a semaphore have at least `value` woken threads ahead of them, value is initial + V's - P's, a free lock with sleepers has a woken thread, the owner of a lock is not waiting for it, and never are two threads past Acquire of one lock and before its Release or Wait. |
| `Synch.MutualExclusion` | code/threads/synch.cc:117-184 | In every run the threads whose Acquire of a lock (or re-acquire in Wait) returned and that have not given it up since, read off the history of calls, are at most one, are the owner the lock records, and exist exactly if the lock is marked busy. |
| `Synch.QuiescentSleepers` | code/threads/synch.cc:64-153 | When nobody is left to run, a sleeper on a semaphore means value zero and a sleeper on a lock means it is held. |
| `Synch.WaitEffect` | code/threads/synch.cc:171-184 | Wait releases the lock and queues the thread in one step. |
| `Synch.BroadcastInv` | code/threads/synch.cc:198-210 | Broadcast, one wakeup after another, keeps the invariants; each waiter goes for the lock it gave up. |
| `Synch.BroadcastEffect` | code/threads/synch.cc:198-210 | Every thread asleep on the condition is woken for the lock it gave up; every other thread, semaphore, lock and queue is as before. |
| `Synch.Notified` | code/threads/synch.cc:185-210 | A Signal step wakes the first waiter and a Broadcast step all of them, each for the lock it gave up; they leave the queue, and nobody else moves. |
| `Synch.Wakeup` | code/threads/synch.cc:88-153 | V, Release and Wait wake the first sleeper, if there is one; Release and Wait free the lock. |
| `Synch.LifeCycle` | code/threads/synch.cc:64-210 | How any step can change any thread: it comes back from P, Acquire or Wait by its own step only, and only once woken. |
| `Synch.ReturnsWithLock` | code/threads/synch.cc:171-184 | Whatever the step, a thread that goes from inside Acquire or Wait to its own code holds the lock then, which was free. |
| `Synch.SemaphoreCounts` | code/threads/synch.cc:64-115 | In every run the value is the initial one plus the V's called less the P's that have returned. |
| `Synch.OwnOutcome` | code/threads/synch.cc:64-184 | A P returns exactly if the value is positive, an Acquire exactly if the lock is free; else the caller sleeps. |
| `Mailboxes.NeverStranded` | code/threads/synch.cc:237-271 | In every reachable state without a woken thread past its increment, new callers or not, blocked senders and blocked receivers do not both exist, completed sends equal completed receives, and one message is buffered per blocked sender. |
| `Mailboxes.StuckIsQuiescent` | code/threads/synch.cc:237-271 | In every reachable state no thread can take a step if and only if each is between calls or asleep on a condition; and then senders and receivers are not both asleep. |
| `Mailboxes.DeliversInOrder` | code/threads/synch.cc:237-271 | Messages are received in the order sent, none lost or doubled, and no ASSERT fails. |
| `Mailboxes.CallsAccountedFor` | code/threads/synch.cc:237-271 | In every run messages received, followed by those buffered, are those passed to Send, in the order the calls got in; each call has returned or its thread is inside. |
| `Mailboxes.StepsForward` | code/threads/synch.cc:237-271 | Each own step brings a call nearer to its return, unless it finds no partner and sleeps. |
| `Mailboxes.NextMailboxInv` | code/threads/synch.cc:237-271 | Every step keeps the counting invariant that ties pending sends and receives to queued and woken threads. |
| `SynchLists.BlockingQueue` | code/threads/synchlist.cc:53-82 | Removed items followed by the contents are the items appended; no waiter sleeps while the list holds more items than there are woken waiters; Remove never finds the list empty. |
| `SynchLists.NextLInv` | code/threads/synchlist.cc:53-82 | Every step keeps that. |
| `SynchLists.CallsAccountedFor` | code/threads/synchlist.cc:53-82 | In every run what the calls of Remove returned, the item about to be returned and the list are together the items passed to Append, in the order the calls got in. |
| `SynchLists.StepsForward` | code/threads/synchlist.cc:53-82 | Each own step brings a call nearer to its return, unless it is a Remove that finds the list empty. |
| `SynchDisks.Synchronous` | code/filesys/synchdisk.cc:72-109 | For any number of threads the disk's ASSERT(!active) never fails, each call returns only after the interrupt of its own request, and the calls behave as if made one at a time in the order they return. |
| `SynchDisks.NextDInv` | code/filesys/synchdisk.cc:72-109 | Every step keeps the handshake between lock, semaphore and device. |
| `SynchDisks.NextAtomic` | code/filesys/synchdisk.cc:72-109 | Every step keeps the disk equal to the replay of the completed calls plus the one under way. |
| `SynchDisks.AnswersTheCalls` | code/filesys/synchdisk.cc:72-109 | In every run the answers logged are to the requests of the calls that have returned, in that order. |
| `SynchDisks.StepsForward` | code/filesys/synchdisk.cc:72-109 | A call takes three own steps: issue, wait, return. |
| `SynchDisks.InterruptEnds` | code/machine/disk.cc:163-168 | The interrupt frees the disk, marks its request done and wakes a thread asleep on it. |
| `Lists.List.NoCycle` | code/threads/list.cc:76-237 | A well-formed chain from first to last has no cycle. |
| `Lists.List.Append` | code/threads/list.cc:76-88 | The list is the old one with the item at the end, and stays well formed. |
| `Lists.List.Prepend` | code/threads/list.cc:102-114 | The list is the old one with the item in front. |
| `Lists.List.SortedInsert` | code/threads/list.cc:178-202 | The list is the old one with the item at its place by key. |
| `Lists.List.SortedRemove` | code/threads/list.cc:217-237 | Takes the first entry with its key, or reports an empty list. |
| `Lists.InsertSortedOrder` | code/threads/list.cc:178-202 | Insertion keeps a list sorted and places the entry after all equal and before all larger keys. |
| `Lists.InsertSortedEntries` | code/threads/list.cc:178-202 | Insertion adds the one entry and loses none. |
| `ReadyLists.ReadyListIsPriorityPool` | code/threads/scheduler.cc:53-74 | Over every run the ready list hands out threads as an unordered pool would that always gives the lowest key, and among equal keys the thread ready longest. |
| `ReadyLists.NextUnique` | code/threads/scheduler.cc:53-74 | The pool leaves no choice. |
| `ReadyLists.Scheduler.ReadyToRun` | code/threads/scheduler.cc:53-60 | Puts the thread where the run semantics says. |
| `ReadyLists.Scheduler.FindNextToRun` | code/threads/scheduler.cc:70-74 | Returns the thread that the pool would give, NULL for an empty pool. |
| `Threads.OnePlace` | code/threads/thread.cc:157-247 | The dispatcher's invariant puts each forked, undestroyed thread at exactly one spot, listed once. |
| `Threads.WakeInv` | code/threads/thread.cc:232-247 | Waking keeps it, also for a sleeper that is still currentThread in the idle loop of Sleep. |
| `Threads.YieldInv` | code/threads/thread.cc:195-211 | Yield keeps it. |
| `Threads.RunNextInv` | code/threads/scheduler.cc:90-127 | A switch keeps it and never destroys the thread that runs. |
| `Threads.FinishInv` | code/threads/thread.cc:157-175 | Finish keeps the invariants of places and of the join protocol. |
| `Threads.JoinInv` | code/threads/thread.cc:319-326 | So does the start of a Join. |
| `Threads.StepInv` | code/threads/thread.cc:35-326 | So does every other step. |
| `Threads.AlwaysOnePlace` | code/threads/thread.cc:157-247 | In every run each forked, undestroyed thread is running, ready, in one wait queue or finished, and only one of these. |
| `Threads.NotDestroyedEarly` | code/threads/thread.cc:35-52 | In every run a joinable thread is finished or destroyed only after its joiner read the exit status it finished with; nobody is inside a Join on it then. |
| `Threads.JoinReturnsAfterFinish` | code/threads/thread.cc:319-326 | In every run Join returns only after the joined thread's Finish began, with the exit status it had then. |
| `Threads.NoLostJoin` | code/threads/thread.cc:157-175 | In every run no joiner sleeps on a thread whose Finish has begun, and no finishing thread sleeps once its joiner let it go. |
| `ThreadMoves.EveryRunMoves` | code/threads/thread.cc:35-326 | In every run each step moves each thread along the allowed ways only, does to the threads it concerns what Fork, Yield, Sleep, a wakeup or a dispatch is for, and sets exit statuses only by SetExit or by the status a joined thread finished with. |
| `ThreadMoves.SchedulingEffect` | code/threads/scheduler.cc:53-127 | Fork makes ready, Yield runs the first ready thread and makes the running one ready, blocking queues it, a wakeup makes the first waiter ready, a dispatch runs the first ready thread. |
| `ThreadMoves.JoinGets` | code/threads/thread.cc:319-326 | A Join gets past its P exactly if the other's Finish has begun. |
| `ThreadMoves.FinishGets` | code/threads/thread.cc:157-175 | Finish ends a thread that cannot be joined; a joinable one waits until its joiner lets it go. |
| `ThreadMoves.ExitMoves` | code/threads/thread.cc:319-326 | Who sets a thread's exit status, and when its final one is fixed. |
| `Carcasses.BuriedIff` | code/threads/scheduler.cc:90-127 | A switch destroys the finished thread if and only if the thread switched to has run before. |
| `Carcasses.CarcassFate` | code/threads/thread.cc:157-175 | Under every step, the finished thread next to be destroyed is destroyed if the step switches to a thread that ran before, forgotten if another thread finishes, and stays next otherwise. |
| `Carcasses.ForgottenForever` | code/threads/scheduler.cc:90-127 | A finished thread that is no longer the one to be destroyed is never destroyed, in any continuation. |
| `Carcasses.FirstIsForgotten` | code/threads/thread.cc:157-175 | A run from the initial state that ends with such a thread. |
| `Multiplier.Mult` | code/machine/mipssim.cc:635-692 | hi:lo is the exact 64-bit product, signed and unsigned, for all operands. |
| `Multiplier.MultLoop` | code/machine/mipssim.cc:657-680 | The shift-and-add loop, with its early exit, computes the unsigned product. |
| `Multiplier.TwosComplement` | code/machine/mipssim.cc:682-690 | The two-word negation is the negation modulo 2 to the 64. |
| `InstructionSet.DecodeAssembled` | code/machine/mipssim.cc:589-630 | Every instruction, put into a word by its opcode bits and fields, is decoded to itself. |
| `InstructionSet.AssembleDecoded` | code/machine/mipssim.h:117-150 | Every word decoded to an implemented operation is the word of that instruction. |
| `InstructionSet.IllegalIff` | code/machine/mipssim.h:117-150 | The words that decode to nothing implemented are those that stand for no instruction. |
| `Meanings.OneInstructionMeans` | code/machine/mipssim.cc:93-582 | The word at the PC is fetched (address error, page fault); what follows is what the instruction it stands for means, or an illegal-instruction trap. |
| `Meanings.EveryInstruction` | code/machine/mipssim.cc:123-565 | For every instruction, on the registers and memory after: the register written and its value in arithmetic or bit by bit, overflow exactly when the sum does not fit, HI and LO, next PC, the load left pending and the one applied, all memory bytes; every other register is as before. |
| `Meanings.MulDivStep` | code/machine/mipssim.cc:195-217 | HI and LO hold the exact 64-bit product, or remainder and quotient: dividend = quotient * divisor + remainder, remainder smaller than the divisor and with the dividend's sign. |
| `Meanings.LoadStep` | code/machine/mipssim.cc:231-343 | What each load leaves pending, in terms of the bytes of memory, and each way it can fail. |
| `Meanings.StoreStep` | code/machine/mipssim.cc:383-532 | What each store does to every byte of memory, and each way it can fail. |
| `Bits.BitIsDigit` | code/userprog/bitmap.cc:74-83 | Bit k of a number is its binary digit. |
| `Cpu.MultInstruction` | code/machine/mipssim.cc:635-692 | The routine gives the high and the low word of the exact product. |
| `Cpu.PreciseRestart` | code/machine/mipssim.cc:93-565 | After any number of page faults, at fetch or data, an instruction that neither reads nor directly writes the pending load's register (counting only operands its case of the switch uses) ends as it would have without them. |
| `Cpu.AfterFault` | code/machine/machine.cc:101-112 | A handled page fault has applied the pending load and set BadVAddr, and left PC, NextPC and all else. |
| `Cpu.FaultIsFlush` | code/userprog/exception.cc:150-168 | So does the fault of any instruction. |
| `DelaySlots.RestartIff` | code/machine/mipssim.cc:93-582 | For every instruction word and pending register: it ends alike with and without a fault, for all registers, memories and residencies, if and only if it avoids the register or is degenerate in it. |
| `DelaySlots.TouchesRefuted` | code/machine/mipssim.cc:93-582 | For every other decoded instruction there are registers and a memory on which a fault changes the outcome. |
| `DelaySlots.DegenerateAgrees` | code/machine/mipssim.cc:93-582 | The degenerate forms (a result that is discarded, constant or a copy of the loaded value; a branch that goes to the same place either way; a product or quotient of zero; a misaligned store to a constant address) agree on all of them. |
| `Programs.PagedIsFlat` | code/machine/mipssim.cc:31-46 | Any run of attempts, faulting or completing, whose faulted instructions restart precisely, ends with the memory that as many instructions on flat memory leave, and registers that differ at most by the pending load. |
| `Programs.PagedEnds` | code/machine/mipssim.cc:31-46 | If the next attempt traps or stops, so does the flat program, alike. |
| `UserPrograms.Attempt` | code/machine/mipssim.cc:93-565 | One OneInstruction with fetch, load and store through the page table and the fault handler ends as the same instruction on every flat array that fits the memory, with the pages that were valid as residency. |
| `UserPrograms.RunProgram` | code/machine/mipssim.cc:31-46 | Any number of attempts on the paged machine from any registers, all made unless the program ends first: flat arrays fit before and after, the flat program leads from one to the other, and how the run ends is how it ends. |
| `Cpu.DelaySlotRead` | code/machine/mipssim.cc:575-582 | An ADDU that reads the pending register through rs alone agrees with its restarted self if and only if old and loaded value are equal. |
| `Cpu.DelaySlotWrite` | code/machine/mipssim.cc:575-582 | A direct write to the pending register survives a restart but not an unfaulted execution; the two agree if and only if the values do. |
| `Interrupts.RunInv` | code/machine/interrupt.cc:115-337 | In every run and for all handlers: calls in non-decreasing due time, none early, each scheduled interrupt pending or called exactly once, total ticks the sum of idle, system and user ticks. |
| `Interrupts.TickFiresTheDue` | code/machine/interrupt.cc:151-180 | One tick outside idle mode calls exactly the handlers due by the new time, in queue order, and leaves nothing due. |
| `Interrupts.DrainStops` | code/machine/interrupt.cc:211-224 | In any mode something is still due when the loop ends if and only if the machine is idle and the one entry left is a due timer. |
| `Interrupts.IdleStops` | code/machine/interrupt.cc:211-235 | Idle returns with something due if and only if the one entry left is a due timer. |
| `Interrupts.IdleLeavesTheTimer` | code/machine/interrupt.cc:211-235 | With a disk and a timer interrupt due at the same time it does. |
| `Interrupts.CheckedLessDue` | code/machine/interrupt.cc:291-337 | Each round that calls a handler leaves one due entry less: the loop ends. |
| `Interrupts.TickGrants` | code/machine/interrupt.cc:151-198 | The same of the tick on values. |
| `Interrupts.EventDoes` | code/machine/interrupt.cc:115-276 | What each event of a run does: a tick, idling, a request, a change of level or of mode. |
| `Interrupts.RunSchedules` | code/machine/interrupt.cc:265-337 | In every run the interrupts scheduled are those asked for from outside and those requested by handlers when they were called, and no others. |
| `Interrupts.IdleJumpsToTheEarliest` | code/machine/interrupt.cc:211-235 | Idle halts exactly when nothing or only the timer is pending; else time jumps to the earliest due time, and that handler is called first. |
| `Interrupts.Interrupt.CheckIfDue` | code/machine/interrupt.cc:291-337 | The component does what the value-level step says, and reports whether a handler was called. |
| `Interrupts.Interrupt.OneTick` | code/machine/interrupt.cc:151-198 | The loop terminates in the state of the value-level tick; a yield is due exactly if it was before or a handler called in this tick asked for one; afterwards the wish is cleared and interrupts are on; the tick goes to the counter of the mode; what the handlers called requested is scheduled. |
| `Interrupts.Interrupt.Idle` | code/machine/interrupt.cc:211-235 | Likewise for idling, after which, unless the machine halts, no yield is due and the mode is system mode; only idle time has passed. |
| `Interrupts.Interrupt.SetLevel` | code/machine/interrupt.cc:115-128 | Turning interrupts on costs a tick; the old level is returned. |
| `Interrupts.Interrupt.Schedule` | code/machine/interrupt.cc:265-276 | The interrupt is queued for now plus the delay. |
| `DiskTiming.HitIff` | code/machine/disk.cc:234-255 | A read without seek is answered from the track buffer if and only if the sector's slot fully passed between the buffer's start and the next boundary. |
| `DiskTiming.LatencyIs` | code/machine/disk.cc:182-255 | A request k tracks away takes one sector's time if it is a read of what the buffer holds; else it ends with the first slot of its sector that begins no earlier than 500 * k ticks from now. |
| `DiskTiming.MissEndsWithItsSlot` | code/machine/disk.cc:234-255 | A request not answered from the buffer ends at the end of its sector's slot, the first such slot after the seek. |
| `DiskTiming.HitIsNoSlower` | code/machine/disk.cc:234-255 | The buffer never makes a read slower. |
| `DiskTiming.ModuloDiff` | code/machine/disk.cc:204-211 | The number of slots, less than a revolution, until the target sector passes. |
| `DiskTiming.ToBoundary` | code/machine/disk.cc:181-196 | The time, less than a slot, to the next slot boundary. |
| `DiskTiming.RunInv` | code/machine/disk.cc:117-273 | In every run the buffer starts on a boundary and not in the future of any request, and the arm has stayed on the track since. |
| `DiskTiming.RunHits` | code/machine/disk.cc:234-255 | In every run a read on the current track hits exactly when its sector passed under the head, arm on that track, since the buffer began. |
| `DiskTiming.Device.ReadRequest` | code/machine/disk.cc:117-135 | Returns the sector's data; the latency is that of the distance in tracks, the slot and the buffer, and the arm arrives and the buffer restarts as the distance says. |
| `DiskTiming.Device.WriteRequest` | code/machine/disk.cc:137-155 | Changes that sector only, likewise. |
| `DiskTiming.Device.UpdateLast` | code/machine/disk.cc:263-273 | The arm arrives 500 ticks a track later; if it moved, the buffer restarts at the first boundary from then on. |
| `PostOffices.WireRoundTrip` | code/machine/network.cc:109-133 | The bytes on the wire, padded to MaxWireSize with whatever the buffer held, carry packet header and payload. |
| `PostOffices.PackRoundTrip` | code/network/post.cc:270-300 | Mail header, data and packet header survive packing, padding, the wire and unpacking, whatever was in the network's inbox and the worker's buffer. |
| `PostOffices.AllSafe` | code/network/post.cc:230-300 | The ASSERTs of post office and network hold in every state with the invariant; the worker never reads an empty inbox. |
| `PostOffices.StepInv` | code/machine/network.cc:66-145 | Every step keeps: semaphore value plus a worker between P and Receive is the packet in the inbox; one packet goes out at a time; letters under way are those kept and not yet put. |
| `PostOffices.MailInOrder` | code/network/post.cc:230-354 | In every run the mail put into a box is an in-order subsequence of the mail sent to it, headers and data intact. |
| `PostOffices.NothingElseIsLost` | code/network/post.cc:230-354 | If the network dropped nothing and nothing is under way, the box got all of it. |
| `PostOffices.MailIsWhatWasSent` | code/network/post.cc:230-354 | In every run a box holds an in-order subsequence of the letters passed to Send for it, and, once nothing is under way, all that the network did not lose. |
| `PostOffices.MailGoesForward` | code/network/post.cc:230-256 | While a letter is under way to a machine, a step of that machine is possible that brings it nearer to its box. |
| `PostOffices.SenderGoesForward` | code/network/post.cc:270-300 | A waiting sender gets on: by the interrupt, then by returning from P and giving up the lock. |
| `PostOffices.RunsAreSafe` | code/machine/network.cc:66-145 | In every run no ASSERT fails. |

## Left out

- Whale: its matchmaker goes on when only one side has completed and then decrements both counters, so the matching it is meant for does not hold.
- Table: its scan runs past the array and its failure path returns with the lock held.
- Several address spaces: store files are named by size only, so the model has one address space with its own store.
- TLB refill and read-only pages in the kernel: `Translate` covers both, but the kernel runs with a page table and never marks a page read-only.
- The handler's `input / PageSize` is taken as the page number of the address, which it is below 2 to the 31; PageSize is at most that.
- The initial value of the clock hand is never set by Initialize; any value in range is allowed. Nothing is claimed about FIFO order of `use_fifo`.
- System calls, the other arms of the exception handler, and exit codes other than through Join.
- Cpu: the register file is a value and not updated in place; INT_MIN divided by -1, which C leaves undefined, and agreement of OR, SRL and SRLV with the MIPS manual are not claimed (the model computes what the code computes). An interrupt also applies the pending load; that is not part of `Interrupts`.
- Negative positions and sizes: the file system does not check them; the model has natural numbers. What happens after a header overran its array. Crash consistency is disclaimed by the source.
- Interrupts: no order is claimed among interrupts with equal due time, which the put-back changes; handlers are known by what they schedule and whether they ask for a yield.
- DiskTiming: the variant compiled with NOTRACKBUF.
- Threads: wait queues other than those of Join are abstract queues, with their counters in `Synch`; stacks and the context switch itself are not modelled.
- PostOffices: sendLock appears as mutual exclusion and the boxes as sequences; `Synch` and `SynchLists` prove those of the lock and the list. Sockets are reliable FIFO queues apart from the packets that Network::Send drops.
- Statistics other than ticks, debug output, console, host wrappers, command line, COFF tools and user programs.
