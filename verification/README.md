# NachOS: verified models of its cores

NachOS is a teaching operating system on a simulated MIPS machine. This project models the parts of it
whose correctness depends on whole runs or on all inputs, and proves what they promise. Each file is one
component:

- `Collections`: options, sequences without repetitions and 32-bit integers, used by all.
- `Semaphores`, `Conditions`, `SynchLists`, `Threads`: semaphores, locks, the monitor built on them, the scheduler.
- `Processes`: the process table and the rendezvous of Exit and Join.
- `Lists`, `Bitmaps`, `HashTables`: the library's linked lists, packed bitmaps and self-resizing hash table.
- `Disks`, `Files`, `FileHeaders`, `Directories`, `PersistentBitmaps`, `FileSystems`, `HeldFiles`: the on-disk file system.
- `Machines`, `MipsMult`, `UnalignedAccess`: address translation, multiplication, unaligned loads and stores.
- `Interrupts`, `DiskTiming`: the simulated clock and the disk's latency.
- `AddressSpaces`: loading programs into page frames, and the frames of all address spaces.
- `Faucets`: the faucet server with its students, down to the text in the request file.

Objects that the kernel updates in place are classes whose methods are proved against functions on values.
Protocols are step systems: a step is a region that the kernel runs with interrupts off, or one access to
shared data; `Next(s, a)` is total, an action that is not enabled leaves the state alone, and theorems about
`Run` therefore hold for every schedule. Fields said to record history never decide what the modelled code
does; they number events, say which of its children a program may still join, or serve the statements alone.
I/O, the contents of uninitialised memory and what interrupt handlers choose to schedule are parameters.

## Where the code does not meet its promise

Each of these has the exact condition under which it does.

- An LWL/LWR pair loses its word when the target is r0. It reads the wrong address when an interrupt falls
  between the two and the target is the base register, or when an older load is about to change the base
  register. In all other states it is right (`LoadPairExact`). An SWL/SWR pair is wrong when an older load moves
  the base or changes the source between the two, unless SWR then stores what is there anyway
  (`StorePairExact`; over all values: `StorePendingExact`).
- A program without code loses up to one page of its data, because the first piece of a data segment is
  meant for the last code page (`LayoutExact`).
- The frame map has 256 bits (`threads/kernel.cc`) and memory 128 frames; frames are real exactly while enough
  of the first 128 bits are clear (`FramesFit`, `FrameBeyondMemory`).
- A student returns a faucet by writing over the last request without truncating it, so that the server can
  read a wrong faucet number and write outside its array. It never does exactly if every amount has one digit,
  or there is one student only and the digits left over make 0 or 1 (`ReturnReadExact`, `SafeExactly`).
- The disk's buffer check rounds up to the next sector boundary, so that a sector can count as buffered before
  it has passed the head. A hit is true at the time of the request exactly if that is a boundary, or the pass
  in progress is not the sector's first (`HitExactly`, `HitIsTrueExactly`, `HitBeforePassEnds`).
- An open file outlives its removal, and its sectors may have become someone else's. A write through it is
  harmless (it keeps the file system's invariant and every byte of every listed file) exactly if none of its
  sectors is marked in the free map (`HeldWriteExact`). Both kinds of harm are within reach of a formatted disk:
  `HeldWriteDamages` breaks the file system, `HeldWriteReaches` changes another file.

## Model

| member | source | states |
|---|---|---|
| Semaphores.Semaphore.TestOnce | project/nachos/NachOS-4.0/code/threads/synch.cc:75-92 | one pass through the loop of `P`: one unit is taken exactly if there is one; otherwise the caller is the last of the queue behind all who were in it, and nothing else changes |
| Semaphores.Semaphore.V | project/nachos/NachOS-4.0/code/threads/synch.cc:102-117 | `V` adds one unit and hands the first thread of the queue, if any, to the scheduler; the others stay in order |
| SemaphoreRuns.EveryRun | project/nachos/NachOS-4.0/code/threads/synch.cc:75-117 | over every interleaving of any threads, with `V` also from interrupt handlers: value = initial + completed `V`s - completed `P`s and is never negative, the queue holds exactly the sleepers without repetition, and while anyone sleeps the value is at most the number of woken threads that have not tested again |
| SemaphoreRuns.NoLostUnit | project/nachos/NachOS-4.0/code/threads/synch.cc:75-117 | nobody sleeps on an available unit once all woken threads have tested again |
| SemaphoreRuns.WokenInTurn | project/nachos/NachOS-4.0/code/threads/synch.cc:75-117 | first come, first served, over every run: a thread asleep behind k others is woken after exactly these k, in their order |
| SemaphoreRuns.SleepersStep | project/nachos/NachOS-4.0/code/threads/synch.cc:75-117 | a step leaves the queue alone, puts the testing thread at its end, or takes off its first one |
| LockRuns.EveryRun | project/nachos/NachOS-4.0/code/threads/synch.cc:181-203 | for any clients of `Acquire` and `Release`, also a holder that calls `Acquire` again, and every interleaving: the semaphore's account of completed `P`s and `V`s leaves room for at most one thread inside, and `lockHolder` names it while it holds the lock |
| LockRuns.MutualExclusion | project/nachos/NachOS-4.0/code/threads/synch.cc:181-203 | hence at most one thread is past `Acquire` and not yet through `Release`, the value is 0 exactly then and 1 otherwise, and the ASSERT in `Release` holds for the holder |
| LockRuns.AgainForEver | project/nachos/NachOS-4.0/code/threads/synch.cc:181-185 | the lock is not reentrant: once a holder has called `Acquire` again, it is still in that call after every continuation of the run |
| Conditions.Condition.Signal | project/nachos/NachOS-4.0/code/threads/synch.cc:277-287 | the first waiter, and no other, gets one unit, and the thread asleep at it, if any, is the one handed to the scheduler; the rest of the queue stays in order |
| Conditions.Condition.Broadcast | project/nachos/NachOS-4.0/code/threads/synch.cc:296-301 | every waiter gets exactly one unit and the queue ends up empty; nobody sleeps any more on a semaphore that had one thread asleep, and one that had none has a unit for the thread to come |
| SynchLists.EveryRun | project/nachos/NachOS-4.0/code/threads/synchlist.cc:51-81 | the invariant of lock, queues, waiter semaphores and list holds after every schedule of any number of appenders and removers, down to single semaphore tests and list accesses |
| SynchLists.FifoQueue | project/nachos/NachOS-4.0/code/threads/synchlist.cc:51-81 | items returned, the at most one being returned, and items still listed are together the items appended, in order |
| SynchLists.StepRefinesQueue | project/nachos/NachOS-4.0/code/threads/synchlist.cc:51-81 | each step is one operation of an atomic FIFO queue or none (linearization points) |
| SynchLists.CallTakesItem | project/nachos/NachOS-4.0/code/threads/synchlist.cc:51-59 | a call of `Append` carries the caller's item |
| SynchLists.ItemUntilLinked | project/nachos/NachOS-4.0/code/threads/synchlist.cc:51-59 | and whatever steps in between, the item stays with its thread until that thread links it in, as the newest of the list |
| SynchLists.MutualExclusion | project/nachos/NachOS-4.0/code/threads/synch.cc:181-203 | at most one thread is between the lock's `P` and `V`, the lock's value is 0 exactly then, `lockHolder` is the caller wherever an ASSERT checks it, and the list's own ASSERTs hold when reached |
| SynchLists.NoLostWakeUp | project/nachos/NachOS-4.0/code/threads/synch.cc:248-287 | with the lock free and a consumer in `waitQueue`, the list is no longer than the number of consumers signalled and not yet past their re-check, none of whom sleeps, although `Wait` releases the lock before `P` |
| SynchLists.SignalledInTurn | project/nachos/NachOS-4.0/code/threads/synch.cc:248-287 | over every run, a consumer behind k others in `waitQueue` is signalled after exactly these k, in their order |
| SynchLists.NeverStuckWithItems | project/nachos/NachOS-4.0/code/threads/synchlist.cc:51-81 | when no thread can step, each is idle or a consumer in `waitQueue`, and if there is such a consumer the list is empty |
| SynchLists.DeletedWaiterIsUnused | project/nachos/NachOS-4.0/code/threads/synch.cc:248-260 | the semaphore that `Wait` deletes has no unit, no sleeper, no place in a queue and no signaller about to post it |
| Schedulers.Scheduler.ReadyToRun | project/nachos/NachOS-4.0/code/threads/scheduler.cc:56-64 | the thread becomes READY and the last of the ready list |
| Schedulers.Scheduler.FindNextToRun | project/nachos/NachOS-4.0/code/threads/scheduler.cc:74-84 | the longest waiting ready thread is taken off the list, or nothing changes if there is none |
| Schedulers.Scheduler.RunNext | project/nachos/NachOS-4.0/code/threads/scheduler.cc:103-125 | the next thread becomes current and RUNNING; a finishing thread is left to be destroyed, and none was before |
| Schedulers.Scheduler.CheckToBeDestroyed | project/nachos/NachOS-4.0/code/threads/scheduler.cc:160-167 | exactly the thread marked for it is deleted |
| Schedulers.Scheduler.Yield | project/nachos/NachOS-4.0/code/threads/thread.cc:201-217 | a switch happens exactly if another thread is ready; then the caller goes to the end of the list and the first ready thread runs |
| ThreadRuns.EveryRun | project/nachos/NachOS-4.0/code/threads/thread.cc:91-255 | the placement invariant holds after every sequence of create, fork, yield, block, wake-up (also while idle), finish and dispatch steps |
| ThreadRuns.ExactlyOnePlace | project/nachos/NachOS-4.0/code/threads/scheduler.cc:56-167 | every existing thread is in exactly one of: just created, running, ready list, one semaphore queue, finishing; once; and its status says so |
| ThreadRuns.NoCarcassAtFinish | project/nachos/NachOS-4.0/code/threads/scheduler.cc:103-167 | `toBeDestroyed` is NULL whenever a thread runs or looks for its successor, so the ASSERT of a finishing `Run` holds |
| ThreadRuns.DispatchedInTurn | project/nachos/NachOS-4.0/code/threads/scheduler.cc:56-84 | a ready thread with k threads ahead of it is dispatched after exactly these k, in their order |
| ThreadRuns.WokenInTurn | project/nachos/NachOS-4.0/code/threads/synch.cc:75-117 | a thread asleep on any semaphore behind k others is woken after exactly these k, in their order |
| Processes.PTable.constructor | project/nachos/NachOS-4.0/code/threads/ptable.cc:6-26 | a table of at most 10 slots with only the main process in slot 0 |
| Processes.PTable.Exec | project/nachos/NachOS-4.0/code/threads/ptable.cc:62-76 | the lowest free slot is taken for the new process and its control block is reset, or -1 and nothing changes when all are in use |
| Processes.PTable.Remove | project/nachos/NachOS-4.0/code/threads/ptable.cc:126-132 | exactly the process's slot becomes free |
| ProcessRuns.EveryRun | project/nachos/NachOS-4.0/code/threads/ptable.cc:42-132 | the rendezvous invariant (slot ownership, both semaphores, joiners, children, results) holds after every interleaving of Exec, Exit and Join of any processes that join their own children once each |
| ProcessRuns.JoinReturnsExitCode | project/nachos/NachOS-4.0/code/threads/ptable.cc:79-116 | what `Join` returned for a child is what that child passed to `Exit`, and a slot is given up only after its code was read |
| ProcessRuns.SlotStaysWithChild | project/nachos/NachOS-4.0/code/threads/ptable.cc:79-97 | throughout a `Join` the slot it looks at belongs to the child it was called for |
| ProcessRuns.NobodyWaitsInVain | project/nachos/NachOS-4.0/code/threads/pcb.cc:84-102 | a `Join` waits only for a child that has not signalled, and a child waits to leave only until its code has been read |
| ProcessRuns.IdsDiffer | project/nachos/NachOS-4.0/code/threads/ptable.cc:42-77 | `Exec` never returns an id still in use: two processes that are not gone have different ids |
| ProcessRuns.JoinIsAccepted | project/nachos/NachOS-4.0/code/threads/ptable.cc:86-89 | the check of the parent's id never rejects a process that joins its own child |
| Lists.List.constructor | project/nachos/NachOS-4.0/code/lib/list.cc:43-47 | an empty list |
| Lists.List.Append | project/nachos/NachOS-4.0/code/lib/list.cc:74-89 | the item is added at the end of the chain of cells |
| Lists.List.Prepend | project/nachos/NachOS-4.0/code/lib/list.cc:97-112 | the item is added at the front |
| Lists.List.RemoveFront | project/nachos/NachOS-4.0/code/lib/list.cc:124-142 | the first item is returned and unlinked; the others stay in order |
| Lists.List.Remove | project/nachos/NachOS-4.0/code/lib/list.cc:150-178 | the first occurrence of the item is unlinked, wherever it is, and `last` is right again |
| Lists.List.IsInList | project/nachos/NachOS-4.0/code/lib/list.cc:186-197 | membership, both ways |
| Lists.List.Insert | project/nachos/NachOS-4.0/code/lib/list.cc:232-260 | the item is linked in front of the first bigger one, behind equal ones |
| Lists.DeleteWorks | project/nachos/NachOS-4.0/code/lib/list.cc:150-178 | on a list without repetitions, removing an item keeps exactly all others |
| Bitmaps.OneBitChanges | project/nachos/NachOS-4.0/code/lib/bitmap.cc:56-80 | `&#124;= 1 << i` and `&= ~(1 << i)` on a 32-bit word change digit i and no other |
| Bitmaps.Bitmap.constructor | project/nachos/NachOS-4.0/code/lib/bitmap.cc:21-36 | a map of the given size with all bits clear |
| Bitmaps.Bitmap.Mark | project/nachos/NachOS-4.0/code/lib/bitmap.cc:55-63 | exactly the named bit is set, across the packed words |
| Bitmaps.Bitmap.Clear | project/nachos/NachOS-4.0/code/lib/bitmap.cc:72-80 | exactly the named bit is cleared |
| Bitmaps.Bitmap.Test | project/nachos/NachOS-4.0/code/lib/bitmap.cc:89-99 | the value of the bit |
| Bitmaps.Bitmap.FindAndSet | project/nachos/NachOS-4.0/code/lib/bitmap.cc:110-120 | the lowest clear bit is set and returned, or -1 and no change when there is none |
| Bitmaps.Bitmap.NumClear | project/nachos/NachOS-4.0/code/lib/bitmap.cc:128-139 | the number of clear bits |
| Bitmaps.TakeClearWorks | project/nachos/NachOS-4.0/code/lib/bitmap.cc:110-139 | as many `FindAndSet` as `NumClear` says succeed, with distinct clear bits, mark exactly these and lower the count by that much |
| Bitmaps.ClearUndoesMark | project/nachos/NachOS-4.0/code/lib/bitmap.cc:55-80 | clearing what was marked restores the map bit for bit |
| HashTables.Added | project/nachos/NachOS-4.0/code/lib/hash.cc:119-120 | appending an item to its key's bucket makes the table stand for the map with that item |
| HashTables.Deleted | project/nachos/NachOS-4.0/code/lib/hash.cc:218-219 | removing an item from its bucket makes the table stand for the map without it |
| HashTables.HashTable.constructor | project/nachos/NachOS-4.0/code/lib/hash.cc:28-52 | an empty table of 4 buckets |
| HashTables.HashTable.ReHash | project/nachos/NachOS-4.0/code/lib/hash.cc:135-153 | four times the buckets, the same map, every item in the bucket of its key |
| HashTables.HashTable.Insert | project/nachos/NachOS-4.0/code/lib/hash.cc:109-124 | the map gains the item, through a resize exactly at 3 items per bucket, and items <= 3 * buckets afterwards |
| HashTables.HashTable.FindInBucket | project/nachos/NachOS-4.0/code/lib/hash.cc:167-181 | an item of that bucket with the key, or none has it |
| HashTables.HashTable.Find | project/nachos/NachOS-4.0/code/lib/hash.cc:192-198 | the map's item under the key, or nothing if there is none |
| HashTables.HashTable.Remove | project/nachos/NachOS-4.0/code/lib/hash.cc:209-223 | the map's item under the key is returned and the map loses that key only |
| HashTables.FlatIsContents | project/nachos/NachOS-4.0/code/lib/hash.cc:271-288 | the buckets one after the other hold every item of the map exactly once, and as many as the map has |
| HashTables.HashIterator.constructor | project/nachos/NachOS-4.0/code/lib/hash.cc:331-340 | all items of the table are still to come |
| HashTables.HashIterator.Next | project/nachos/NachOS-4.0/code/lib/hash.cc:348-360 | exactly the current item is passed, over empty buckets |
| HashTables.VisitAll | project/nachos/NachOS-4.0/code/lib/hash.cc:250-259 | a loop over the iterator visits each item exactly once |
| MipsMult.AddPair | project/nachos/NachOS-4.0/code/machine/mipssim.cc:800-804 | addition of two words each with the carry found by comparing is addition modulo 2^64 |
| MipsMult.NegatePair | project/nachos/NachOS-4.0/code/machine/mipssim.cc:818-824 | the sign change of a word pair is negation modulo 2^64 |
| MipsMult.MultLoop | project/nachos/NachOS-4.0/code/machine/mipssim.cc:795-814 | the loop with its early exit computes the 32 shift-and-add rounds |
| MipsMult.RoundsMultiply | project/nachos/NachOS-4.0/code/machine/mipssim.cc:795-814 | 32 rounds with an arithmetically shifted multiplier add up to the unsigned product |
| MipsMult.Mult | project/nachos/NachOS-4.0/code/machine/mipssim.cc:771-828 | hi:lo is the exact 64-bit product for all 32-bit operands, signed and unsigned, the minimum integer included |
| Machines.Machine.Translate | project/nachos/NachOS-4.0/code/machine/translate.cc:184-251 | each of the four exceptions exactly under its condition on alignment, table length, valid, read-only and frame, no exception exactly if the address is aligned, mapped, writable if need be and in memory; then the frame is the entry's, the offset the address's, and the use and dirty bits of that entry alone change; on an exception nothing does |
| Machines.Machine.ReadMem | project/nachos/NachOS-4.0/code/machine/translate.cc:85-120 | the little-endian value of exactly the virtual bytes named, or the exception |
| Machines.Machine.WriteMem | project/nachos/NachOS-4.0/code/machine/translate.cc:135-167 | exactly the bytes at the translated place change, or none on an exception |
| Machines.Machine.DelayedLoad | project/nachos/NachOS-4.0/code/machine/mipssim.cc:711-718 | the pending load is done, the next one noted, r0 stays 0 |
| Machines.Machine.RaiseException | project/nachos/NachOS-4.0/code/machine/machine.cc:100-110 | the address is recorded, the pending load completed, and the program counters stay |
| Machines.AlignedWord | project/nachos/NachOS-4.0/code/machine/translate.cc:194-210 | an aligned access never straddles a page, so its bytes are neighbours in main memory |
| Machines.StoredThenLoaded | project/nachos/NachOS-4.0/code/machine/translate.cc:85-167 | a store and a load of the same size return the value up to its width, with a byte taken as signed |
| UnalignedAccess.MasksAndShifts1 | project/nachos/NachOS-4.0/code/machine/mipssim.cc:346-416 | the model's byte-wise masks and shifts are the source's `& 0xff`, `>> 8` and `<< 24` |
| UnalignedAccess.MasksAndShifts2 | project/nachos/NachOS-4.0/code/machine/mipssim.cc:346-416 | likewise `& 0xffff`, `>> 16` and `<< 16` |
| UnalignedAccess.MasksAndShifts3 | project/nachos/NachOS-4.0/code/machine/mipssim.cc:346-416 | likewise `& 0xffffff`, `>> 24` and `<< 8` |
| UnalignedAccess.LoadLeftBytes | project/nachos/NachOS-4.0/code/machine/mipssim.cc:346-361 | byte by byte: LWL keeps the lower bytes and shifts the word in above |
| UnalignedAccess.LoadRightBytes | project/nachos/NachOS-4.0/code/machine/mipssim.cc:399-416 | byte by byte: LWR keeps the upper bytes and shifts the word in below |
| UnalignedAccess.StoreLeftBytes | project/nachos/NachOS-4.0/code/machine/mipssim.cc:581-600 | byte by byte: what SWL writes back |
| UnalignedAccess.StoreRightBytes | project/nachos/NachOS-4.0/code/machine/mipssim.cc:639-655 | byte by byte: what SWR writes back |
| UnalignedAccess.ExecuteLoad | project/nachos/NachOS-4.0/code/machine/mipssim.cc:312-418 | the object's registers after LWL and LWR, forwarding included, as the functions that the theorems below are about; on a mapped word execution goes on to the next instruction, otherwise the program counters stay and the word's address is recorded |
| UnalignedAccess.ExecuteStore | project/nachos/NachOS-4.0/code/machine/mipssim.cc:552-700 | the object's registers and memory after SWL and SWR, likewise |
| UnalignedAccess.LoadPairLoads | project/nachos/NachOS-4.0/code/machine/mipssim.cc:312-418 | LWL at A+3 and LWR at A load the little-endian word at A for every mapped A, also across pages and whether or not an interrupt completes the pending load in between, for all registers with the three properties below; other registers keep their values, and execution is two instructions further on |
| UnalignedAccess.LoadPairExact | project/nachos/NachOS-4.0/code/machine/mipssim.cc:312-418 | for every state of the registers and every displacement: the pair does so for all page tables and memories if and only if the target is not r0, is not the base register when interrupted, and no older load is about to change the base register |
| UnalignedAccess.LoadPairFails | project/nachos/NachOS-4.0/code/machine/interrupt.cc:309-311 | in every other state of the registers, a page table and a memory for which the pair loads something else |
| UnalignedAccess.FailingInputs | project/nachos/NachOS-4.0/code/machine/mipssim.cc:711-718 | with one mapped page and a memory of ones, an input for each of the three ways to fail |
| UnalignedAccess.StorePairStores | project/nachos/NachOS-4.0/code/machine/mipssim.cc:552-668 | SWL at A+3 and SWR at A change exactly the four bytes at A, to those of the register, even if two pages share a frame, when no older load is about to change base or source; execution is then two instructions further on |
| UnalignedAccess.StorePairExact | project/nachos/NachOS-4.0/code/machine/mipssim.cc:552-668 | in a given state of the registers the pair does so for all page tables and memories if and only if SWR, once the older load is done, goes to A, or to a later byte of an aligned word, and from there to the boundary stores the bytes that belong there |
| UnalignedAccess.StorePendingExact | project/nachos/NachOS-4.0/code/machine/mipssim.cc:552-668 | while a load into register p is pending, the pair does so for all registers, page tables and memories if and only if p is r0 or neither base nor source |
| UnalignedAccess.StorePairFails | project/nachos/NachOS-4.0/code/machine/mipssim.cc:711-718 | an input for every other p |
| UnalignedAccess.StoreThenLoad | project/nachos/NachOS-4.0/code/machine/mipssim.cc:312-418 | a word stored at any address is loaded back from it, under the exact conditions of the two pairs |
| Interrupts.InsertIsSortedInsert | project/nachos/NachOS-4.0/code/machine/interrupt.cc:55-63 | the pending list's order is that of the linked sorted list under `PendingCompare` |
| Interrupts.HandlersScheduleLater | project/nachos/NachOS-4.0/code/machine/interrupt.cc:256-266 | whatever a handler schedules is not yet due |
| Interrupts.OneFewerDue | project/nachos/NachOS-4.0/code/machine/interrupt.cc:314-319 | each pass of the firing loop leaves exactly one fewer due, so it terminates although handlers schedule more |
| Interrupts.Interrupt.ScheduleIn | project/nachos/NachOS-4.0/code/machine/interrupt.cc:256-266 | exactly one more event is pending, for the present time plus the delay asked for, in its place in the sorted list |
| Interrupts.Interrupt.FireDue | project/nachos/NachOS-4.0/code/machine/interrupt.cc:280-322 | the do-while loop fires all that is due, after advancing an idle clock to the next event; whether anything fired; only an idle jump moves the clock, and it counts as idle time |
| Interrupts.Interrupt.Tick | project/nachos/NachOS-4.0/code/machine/interrupt.cc:147-168 | 10 system ticks in system mode, 1 user tick in user mode, no other counter moves; then whatever is due fires |
| InterruptRuns.InsertKeepsOrder | project/nachos/NachOS-4.0/code/lib/list.cc:232-260 | the newest event goes behind all that are not later, so the list stays ordered by time and then by scheduling order |
| InterruptRuns.CheckIfDueWorks | project/nachos/NachOS-4.0/code/machine/interrupt.cc:280-322 | nothing due remains, an idle clock arrives exactly at the next event, and the invariant is kept |
| InterruptRuns.EveryRun | project/nachos/NachOS-4.0/code/machine/interrupt.cc:147-322 | over every run and all handlers: total = idle + system + user; every event scheduled is pending once or fired once; none fired early |
| InterruptRuns.FiresWhenAsked | project/nachos/NachOS-4.0/code/machine/interrupt.cc:147-322 | over every run and all handlers: an event asked for at t with delay d, by a device or a handler, is for t + d, and once the clock is there it has fired, at t + d or less than 10 ticks later |
| InterruptRuns.RequestFires | project/nachos/NachOS-4.0/code/machine/interrupt.cc:256-322 | so for each request of a device along the run |
| InterruptRuns.HandlersCalled | project/nachos/NachOS-4.0/code/machine/interrupt.cc:314-319 | the handler of the k-th event fired is called then and asks for exactly its interrupts, in order, and no handler asks for others |
| InterruptRuns.FiringOrder | project/nachos/NachOS-4.0/code/machine/interrupt.cc:280-322 | over the whole run events fire in nondecreasing time, ties in scheduling order, never before their time and never twice |
| DiskTiming.SeekIsDistance | project/nachos/NachOS-4.0/code/machine/disk.cc:176-191 | seek time is zero exactly within a track, one SeekTime to a neighbour, symmetric, and adds up across tracks |
| DiskTiming.MissEndsAfterSector | project/nachos/NachOS-4.0/code/machine/disk.cc:229-250 | a request that misses the track buffer ends on the boundary after its sector, and that is the first time the sector passes the head after the seek |
| DiskTiming.HitExactly | project/nachos/NachOS-4.0/code/machine/disk.cc:236-243 | a read on the current track hits the buffer if and only if the sector has fully passed the head between `bufferInit` and the next boundary |
| DiskTiming.HitIsTrueExactly | project/nachos/NachOS-4.0/code/machine/disk.cc:236-243 | a sector that hits has passed the head by the time of the request itself if and only if the request comes on a boundary, or the pass in progress is not the sector's first since `bufferInit` |
| DiskTiming.HitBeforePassEnds | project/nachos/NachOS-4.0/code/machine/disk.cc:236-243 | an input where that condition fails: at time 1 sector 0 is a hit although no pass of it has ended |
| DiskTiming.LatencyByPasses | project/nachos/NachOS-4.0/code/machine/disk.cc:229-250 | one RotationTime if the buffer has the sector, otherwise up to the end of the first pass after the seek |
| DiskTiming.LatencyBounds | project/nachos/NachOS-4.0/code/machine/disk.cc:229-250 | RotationTime <= latency < (NumTracks-1)*SeekTime + (SectorsPerTrack+1)*RotationTime |
| DiskTiming.Disk.Request | project/nachos/NachOS-4.0/code/machine/disk.cc:113-151 | a read that the buffer can answer takes one RotationTime; any other request ends when its sector has passed the head for the first time after the seek; the buffer begins no later than the request ends; only when no request is active |
| DiskTiming.Disk.TimeToSeek | project/nachos/NachOS-4.0/code/machine/disk.cc:176-191 | the seek over the tracks, and the wait to the next sector boundary after it |
| DiskTiming.Disk.ComputeLatency | project/nachos/NachOS-4.0/code/machine/disk.cc:229-250 | one RotationTime exactly if the sector has passed since `bufferInit`, on the current track, for a read; otherwise the time to the end of its first pass after the seek |
| DiskTiming.Disk.UpdateLast | project/nachos/NachOS-4.0/code/machine/disk.cc:258-268 | a request on the same track leaves `bufferInit` as it was; any other one sets it to the one sector boundary within a RotationTime from the end of the seek on |
| DiskTiming.Disk.CallBack | project/nachos/NachOS-4.0/code/machine/disk.cc:158-163 | the disk is idle again |
| DiskRuns.EveryRun | project/nachos/NachOS-4.0/code/machine/disk.cc:113-268 | over every run `bufferInit` lies on a boundary and not after the end of the request that set it |
| DiskRuns.BufferIsPastWhenIdle | project/nachos/NachOS-4.0/code/machine/disk.cc:258-268 | whenever the disk is idle, `bufferInit` <= now |
| DiskRuns.ReadsHitExactly | project/nachos/NachOS-4.0/code/machine/disk.cc:229-250 | in every run the hit condition is exact, and a hit takes one RotationTime, by when the pass is over |
| DiskRuns.ReadsSinceArrival | project/nachos/NachOS-4.0/code/machine/disk.cc:229-268 | in every run, a read on the current track takes one RotationTime exactly if the sector has passed the head since the head came to the track, otherwise it ends with the next pass |
| DiskRuns.ArrivedByRequest | project/nachos/NachOS-4.0/code/machine/disk.cc:258-268 | the head came to its track at the end of the seek of the last request that changed the track, or at the start |
| DiskRuns.HitsAreTrueExactly | project/nachos/NachOS-4.0/code/machine/disk.cc:229-250 | in every run, a hit is true at the time of the request exactly under the condition of `HitIsTrueExactly` |
| DiskRuns.EarlyHitIsReached | project/nachos/NachOS-4.0/code/machine/disk.cc:229-250 | one tick after the start the condition fails |
| AddressSpaces.PagesNeeded | project/nachos/NachOS-4.0/code/userprog/addrspace.cc:133-148 | the fewest pages that hold all segments and the stack |
| AddressSpaces.AddrSpace.AllocateFrames | project/nachos/NachOS-4.0/code/userprog/addrspace.cc:163-172 | entry i is for page i, unused, with the lowest free frame, zeroed; no other byte of memory changes |
| AddressSpaces.CopyPages | project/nachos/NachOS-4.0/code/userprog/addrspace.cc:194-204 | the page loop of a segment appends exactly its bytes to the flat view of the frames, whatever the frames are |
| AddressSpaces.AppendSegment | project/nachos/NachOS-4.0/code/userprog/addrspace.cc:206-253 | a data segment continues in the open page and goes on in new ones; with no page open its first piece is not copied |
| AddressSpaces.AddrSpace.Load | project/nachos/NachOS-4.0/code/userprog/addrspace.cc:109-257 | succeeds exactly if enough frames are free; then the frames are marked, the space behind them holds the image, and no other frame changes; otherwise nothing changes |
| AddressSpaces.AddrSpace.Destroy | project/nachos/NachOS-4.0/code/userprog/addrspace.cc:86-92 | exactly the space's frames become free |
| AddressSpaces.LoadRefinesFlatImage | project/nachos/NachOS-4.0/code/userprog/addrspace.cc:184-253 | through the page table, virtual address v reads byte v of code ++ initData ++ readonlyData ++ zeros, for all segment sizes with code and any free frames |
| AddressSpaces.EachSegmentInPlace | project/nachos/NachOS-4.0/code/userprog/addrspace.cc:184-253 | the same segment by segment: which byte of the file each virtual address reads |
| AddressSpaces.LayoutExact | project/nachos/NachOS-4.0/code/userprog/addrspace.cc:184-253 | that layout results for every file if and only if there is code, or nothing to load |
| AddressSpaces.LayoutBroken | project/nachos/NachOS-4.0/code/userprog/addrspace.cc:206-218 | without code, a file whose data loses its first page |
| AddressSpaces.FramesFit | project/nachos/NachOS-4.0/code/userprog/addrspace.cc:156-172 | all frames found lie in memory if and only if that many of the first 128 bits of the frame map are clear |
| FramePartition.LoadKeepsInv | project/nachos/NachOS-4.0/code/userprog/addrspace.cc:143-171 | a `Load` keeps the partition of the marked frames |
| FramePartition.DestroyKeepsInv | project/nachos/NachOS-4.0/code/userprog/addrspace.cc:86-92 | a destruction keeps it, too |
| FramePartition.EveryRun | project/nachos/NachOS-4.0/code/userprog/addrspace.cc:86-171 | over every sequence of Loads and destructions: live spaces have pairwise disjoint frames, the marked bits are exactly their union, and free + owned = all |
| FramePartition.Isolation | project/nachos/NachOS-4.0/code/machine/translate.cc:184-251 | what one live space writes through its page table changes no byte visible in another |
| FramePartition.LoadThenDestroy | project/nachos/NachOS-4.0/code/userprog/addrspace.cc:86-171 | loading and destroying restores the frame map bit for bit |
| FramePartition.FrameBeyondMemory | project/nachos/NachOS-4.0/code/threads/kernel.cc:105 | with a frame map longer than memory, two Loads that leave the second space a frame beyond it (128 pages, then 1, for the kernel's 256 bits) |
| Files.HeaderRoundTrip | project/nachos/NachOS-4.0/code/filesys/filehdr.cc:83-100 | a header written to its sector is read back unchanged |
| Files.Clip | project/nachos/NachOS-4.0/code/filesys/openfile.cc:124-135 | a request transfers as many bytes as it asks for, up to the end of the file |
| Files.OpenFile.constructor | project/nachos/NachOS-4.0/code/filesys/openfile.cc:29-34 | the header is that on disk, the position 0 |
| Files.OpenFile.ReadAt | project/nachos/NachOS-4.0/code/filesys/openfile.cc:124-151 | exactly the clipped slice of the flat file arrives in the buffer, for every position and length; nothing else of the buffer changes |
| Files.OpenFile.WriteAt | project/nachos/NachOS-4.0/code/filesys/openfile.cc:153-192 | exactly the clipped range of the flat file is replaced, for all alignments; no sector outside the file's changes |
| Files.OpenFile.Seek | project/nachos/NachOS-4.0/code/filesys/openfile.cc:63-67 | the position is set |
| Files.OpenFile.Read | project/nachos/NachOS-4.0/code/filesys/openfile.cc:82-88 | reads at the position and advances it by what was read |
| Files.OpenFile.Write | project/nachos/NachOS-4.0/code/filesys/openfile.cc:90-96 | writes at the position, changes nothing else of this file and no other sector, and advances by what was written |
| Files.ReadBack | project/nachos/NachOS-4.0/code/filesys/openfile.cc:124-192 | any `ReadAt` after a `WriteAt` yields what was written within the written range, and the old bytes outside it |
| Files.OtherFileUnchanged | project/nachos/NachOS-4.0/code/filesys/openfile.cc:153-192 | a file without a written sector keeps all its bytes |
| FileHeaders.FileHeader.Allocate | project/nachos/NachOS-4.0/code/filesys/filehdr.cc:43-58 | succeeds exactly if there are enough clear sectors; then the header owns the lowest ones, distinct, and exactly these are marked; otherwise the map is unchanged |
| FileHeaders.FileHeader.Deallocate | project/nachos/NachOS-4.0/code/filesys/filehdr.cc:67-74 | exactly the header's data sectors are cleared |
| FileHeaders.FileHeader.FetchFrom | project/nachos/NachOS-4.0/code/filesys/filehdr.cc:83-87 | the header in the sector |
| FileHeaders.FileHeader.WriteBack | project/nachos/NachOS-4.0/code/filesys/filehdr.cc:96-100 | only that sector changes, and it decodes to the header |
| Directories.SamePrefixIsSameKey | project/nachos/NachOS-4.0/code/filesys/directory.cc:89-96 | `strncmp` over nine characters is equality of nine-character keys |
| Directories.KeyIsPrefix | project/nachos/NachOS-4.0/code/filesys/directory.cc:90-97 | the key is the name up to its terminating zero or its ninth character |
| Directories.StoredName | project/nachos/NachOS-4.0/code/filesys/directory.cc:128-142 | a name copied into an entry, over whatever was there, keeps its key |
| Directories.StoredBytes | project/nachos/NachOS-4.0/code/filesys/directory.cc:128-142 | behind the characters the stored name is filled with zeros, and the tenth byte stays |
| Directories.TableRoundTrip | project/nachos/NachOS-4.0/code/filesys/directory.cc:62-79 | a table written to the directory file is read back unchanged |
| Directories.Directory.constructor | project/nachos/NachOS-4.0/code/filesys/directory.cc:37-43 | a table without entries in use, over uninitialised memory |
| Directories.Directory.FetchFrom | project/nachos/NachOS-4.0/code/filesys/directory.cc:62-66 | the table in the file |
| Directories.Directory.WriteBack | project/nachos/NachOS-4.0/code/filesys/directory.cc:75-79 | the file holds the table, and nothing but that file changes |
| Directories.Directory.FindIndex | project/nachos/NachOS-4.0/code/filesys/directory.cc:89-96 | the first entry in use with the key, or -1 if and only if there is none |
| Directories.Directory.Find | project/nachos/NachOS-4.0/code/filesys/directory.cc:107-115 | the header sector under the key, or -1 |
| Directories.Directory.Add | project/nachos/NachOS-4.0/code/filesys/directory.cc:128-142 | succeeds exactly if the key is new and an entry is free; then the first free entry, and only it, is taken; otherwise no change |
| Directories.Directory.Remove | project/nachos/NachOS-4.0/code/filesys/directory.cc:152-161 | succeeds exactly if the key is listed; then that entry, and only it, is given up |
| Directories.LookupIsTheFile | project/nachos/NachOS-4.0/code/filesys/directory.cc:107-115 | with unique keys, `Find` yields the header sector of the one file with that key, and -1 if and only if there is none |
| Directories.AddKeepsUnique | project/nachos/NachOS-4.0/code/filesys/directory.cc:128-142 | no two entries in use get the same key |
| Directories.DropKeepsUnique | project/nachos/NachOS-4.0/code/filesys/directory.cc:152-161 | nor do they by a removal |
| PersistentBitmaps.WordsRoundTrip | project/nachos/NachOS-4.0/code/filesys/pbitmap.cc:62-79 | the words of the map written to its file are read back unchanged |
| PersistentBitmaps.FetchBitmap | project/nachos/NachOS-4.0/code/filesys/pbitmap.cc:38-44 | the bits in the file |
| PersistentBitmaps.WriteBackBitmap | project/nachos/NachOS-4.0/code/filesys/pbitmap.cc:75-79 | the file holds the bits, and nothing but that file changes |
| FileSystems.FormatDisk | project/nachos/NachOS-4.0/code/filesys/filesys.cc:84-127 | a disk of any content becomes an empty file system whose marked sectors are exactly those of the two system files; both ASSERTs hold |
| FileSystems.FileSystem.Format | project/nachos/NachOS-4.0/code/filesys/filesys.cc:84-127 | the format branch establishes the invariant with an empty directory and all but four sectors free |
| FileSystems.Plan | project/nachos/NachOS-4.0/code/filesys/filesys.cc:194-213 | Create goes ahead exactly if the key is new, an entry is free and the free sectors suffice for header and data |
| FileSystems.FileSystem.Create | project/nachos/NachOS-4.0/code/filesys/filesys.cc:185-225 | success exactly under that condition; a failed Create leaves the disk unchanged; a successful one enters the file, whose header and data get the first clear sectors in order, and writes only free sectors and the two system files |
| FileSystems.FileSystem.Remove | project/nachos/NachOS-4.0/code/filesys/filesys.cc:297-327 | success exactly if the key is listed; then its header and data sectors are freed and its entry given up; otherwise the disk is unchanged |
| FileSystems.FileSystem.WriteFile | project/nachos/NachOS-4.0/code/filesys/openfile.cc:153-192 | a write to a listed file replaces its clipped range and keeps the file system's invariant, free map and directory |
| FileSystems.CreateKeepsInv | project/nachos/NachOS-4.0/code/filesys/filesys.cc:185-225 | after a Create the marked sectors are again exactly the disjoint union of all claims |
| FileSystems.RemoveKeepsInv | project/nachos/NachOS-4.0/code/filesys/filesys.cc:297-327 | so they are after a Remove |
| FileSystems.DataWriteKeepsInv | project/nachos/NachOS-4.0/code/filesys/openfile.cc:153-192 | and after a write to file data, with free map and directory unchanged |
| FileSystems.DataOnlyKeepsInv | project/nachos/NachOS-4.0/code/filesys/openfile.cc:153-192 | any write that touches no header, no free map and no directory keeps the invariant, the free map and the directory |
| HeldFiles.HeldWriteExact | project/nachos/NachOS-4.0/code/filesys/openfile.cc:153-192 | for a header held by an open file: every write through it, wherever and whatever is written, keeps the invariant and the header and bytes of every listed file, if and only if none of its data sectors is marked in the free map |
| HeldFiles.WriteHeld | project/nachos/NachOS-4.0/code/filesys/openfile.cc:153-192 | WriteAt through an open file is such a write; when its sectors are unmarked, free map, directory and every listed file stay as they were |
| HeldFiles.HeldWriteDamages | project/nachos/NachOS-4.0/code/filesys/filesys.cc:185-327 | on any formatted disk: create a file of one sector, open it, remove it, create two empty files, write through the open file: the invariant is broken |
| HeldFiles.HeldWriteReaches | project/nachos/NachOS-4.0/code/filesys/filesys.cc:185-327 | on any formatted disk: create a file of any size, open it, remove it, create another of the same size, write through the open file: the invariant holds and the new file has the bytes written to the removed one |
| HeldFiles.StructureExact | project/nachos/NachOS-4.0/code/filesys/openfile.cc:153-192 | a write to given sectors, whatever the data, keeps the invariant if and only if none of them belongs to the free map, the directory or a header |
| HeldFiles.HeldButListed | project/nachos/NachOS-4.0/code/filesys/openfile.cc:153-192 | the sectors of a file that is listed with the header it was opened with are of that kind |
| FileSystems.SystemSectors | project/nachos/NachOS-4.0/code/filesys/filesys.cc:84-127 | under the invariant, the system sectors are marked and belong to no listed file |
| FileSystems.FileSectors | project/nachos/NachOS-4.0/code/filesys/filesys.cc:297-320 | under the invariant, every sector that Deallocate clears is marked, so its ASSERT holds |
| FileSystems.FilesDisjoint | project/nachos/NachOS-4.0/code/filesys/filesys.cc:185-327 | no two listed files share a sector |
| FileSystems.OtherFilesStay | project/nachos/NachOS-4.0/code/filesys/filesys.cc:185-327 | Create and Remove change no byte and no header of any other file |
| FileSystems.WriteLeavesOthers | project/nachos/NachOS-4.0/code/filesys/openfile.cc:153-192 | a write to one file changes no byte of any other |
| FileSystems.CreateThenRemove | project/nachos/NachOS-4.0/code/filesys/filesys.cc:185-327 | Create then Remove of a name restores the free map bit for bit, every entry in use and every lookup |
| FileSystems.CreateAndRemove | project/nachos/NachOS-4.0/code/filesys/filesys.cc:185-327 | the two calls on any valid file system: Create succeeds exactly when it can, and after the Remove free map and lookups are as before both |
| FileSystems.History | project/nachos/NachOS-4.0/code/filesys/filesys.cc:81-327 | format and any sequence of Create, Remove and writes keep the invariant throughout |
| FaucetRequests.ReadsTwoNumbers | project/nachos/NachOS-4.0/code/test/fileutils.h:24-65 | the server reads a request back as the two numbers in it |
| FaucetRequests.ReturnReadExact | project/nachos/NachOS-4.0/code/test/student_1.c:65-74 | a return request written over a take request is read right if and only if nothing is left over of the latter, or only zeros behind faucet 0 |
| Faucets.StudentKeepsInv | project/nachos/NachOS-4.0/code/test/student_1.c:28-77 | every step of a student keeps the protocol's invariant |
| Faucets.ServerKeepsInv | project/nachos/NachOS-4.0/code/test/pipe.c:23-54 | every step of the server does |
| Faucets.FaucetIsFree | project/nachos/NachOS-4.0/code/test/pipe.c:32-46 | every take request finds a free faucet |
| Faucets.EveryRun | project/nachos/NachOS-4.0/code/test/pipe.c:23-54 | the invariant holds for any number of students with one-digit amounts and every interleaving |
| Faucets.DrinkerHasFaucet | project/nachos/NachOS-4.0/code/test/student_1.c:46-56 | whoever has a faucet has number 1 or 2, which the server holds busy |
| Faucets.FaucetsNotShared | project/nachos/NachOS-4.0/code/test/student_1.c:46-56 | no two students have the same faucet |
| Faucets.ServerAlwaysAnswers | project/nachos/NachOS-4.0/code/test/pipe.c:23-54 | at most one request is outstanding, a take is always granted, and a return frees the faucet its sender holds |
| Faucets.AllReturned | project/nachos/NachOS-4.0/code/test/student_1.c:62-77 | when all students are gone, faucets and semaphores are as at the start |
| Faucets.StuckMeansGone | project/nachos/NachOS-4.0/code/test/pipe.c:23-54 | when no step of a student or of the server changes the state, every student is gone |
| Faucets.NoDeadlock | project/nachos/NachOS-4.0/code/test/student_1.c:28-77 | hence no run deadlocks |
| Faucets.GoesAstray | project/nachos/NachOS-4.0/code/test/student_1.c:65-74 | two students, one with a longer amount: a run in which the server writes outside its array |
| Faucets.GoesAstrayAlone | project/nachos/NachOS-4.0/code/test/student_1.c:65-74 | so it does with a single student whose leftover digits make 2 or more |
| Faucets.EveryRunAlone | project/nachos/NachOS-4.0/code/test/student_1.c:65-74 | and with a single student whose leftover digits make 0 or 1 it never does |
| Faucets.OneStudentInputs | project/nachos/NachOS-4.0/code/test/student_1.c:65-74 | 12 is such an amount; 10 and 11 are not |
| Faucets.SafeExactly | project/nachos/NachOS-4.0/code/test/pipe.c:23-54 | for any number of students, the server stays within its array in every run if and only if every amount has one digit, or there is one student only and the digits left over of its amount make 0 or 1 |

## Left out

- Blocking calls as methods of their objects (`P`, `Acquire`, `Wait`, `SynchList::Append`/`RemoveFront`, `Sleep`, `JoinUpdate`, `ExitUpdate`): a method that waits for another thread cannot be stated as one; they are modelled on values, step by step, in the run modules.
- Semaphores.Semaphore.TestOnce: one pass of the loop in `P`; sleeping and coming back are steps of `SemaphoreRuns`.
- Schedulers.Scheduler.RunNext: only up to the switch; the assembly routine, stacks and the saving of user registers are not modelled, and what follows the switch is a step of `ThreadRuns`.
- Schedulers.Scheduler.Yield: only up to the switch; the interrupt level is not modelled.
- Conditions.Condition.Signal: the lock argument and the ASSERT that the caller holds it, which the steps of `SynchLists` have.
- Conditions.Condition.Broadcast: runs with `Broadcast` step by step, which the synchronised list does not use.
- Processes.PTable.Remove: the deletion of the control block, which ends the thread.
- Processes.PTable.Exec: without the checks of the program's name and without creating the thread.
- ProcessRuns.EveryRun: `numwait`, file tables, Halt on the main process's Exit and joins of ids that are not the caller's unjoined children are not modelled.
- FileHeaders.FileHeader.Allocate: requires a size within `MaxFileSize`, which the source does not check; beyond it the source writes outside its array.
- FileSystems.FileSystem.Create: requires an initial size within `MaxFileSize`, for the same reason.
- FileSystems.FileSystem.Format: without the Creates of `stdin` and `stdout` that the constructor ends with; `History` covers them as its first two operations.
- FileSystems.FileSystem.WriteFile: stands for opening a listed file and one `WriteAt` (files held open are in `HeldFiles`); `FileSystem::Open` with its table of open files is unfinished bookkeeping in the source.
- Directories.Directory.WriteBack: the two padding bytes of an entry are modelled as zero.
- Files.OpenFile.ReadAt: 32-bit overflow of position + length is not modelled, nor are negative positions.
- Machines.Machine.Translate: the branch with a TLB, which no kernel code loads; big-endian hosts.
- Machines.Machine.RaiseException: up to the call of the kernel's exception handler.
- UnalignedAccess.ExecuteLoad: the bitwise or of disjoint bit fields is written as a sum, and the four cases of a switch as one formula.
- AddressSpaces.AddrSpace.Load: reading, checking and swapping the NOFF header; the header is a parameter, the file a sequence of bytes; the ASSERT on the number of pages is a precondition, and so is that the free frames found are real ones.
- AddressSpaces.AddrSpace.AllocateFrames: requires the frames found to be real ones, since the source would clear memory it does not have; the address-space lock is left out, and the allocation it guards is one step.
- Interrupts.Interrupt.FireDue: handlers are known by what they schedule; interrupt levels, `yieldOnReturn` and `Halt` are not modelled.
- Interrupts.Interrupt.Tick: 32-bit overflow of the tick counters.
- DiskTiming.Disk.Request: the transfer of data, which is modelled by `Disks.SynchDisk`, and the statistics.
- HashTables.HashTable.Insert: a bucket is a sequence here; its linked cells are proved against sequences in `Lists`.
- HashTables.HashTable.constructor: the destructor and `Apply` are left out.
- FaucetRequests.ReadsTwoNumbers: numbers with a sign, and the formatting of `WriteNum`; amounts are the digits it wrote.
- Faucets.EveryRun: the files of students and results with their mutexes, which do not touch the faucets.
- The network and post office, the console, host I/O and the stub file system: foreign calls, or the same hand-off as the synchronised list.
- The rest of the MIPS instruction set, and printing, statistics and self tests: one-branch facts.
