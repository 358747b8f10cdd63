# Shad OS kernel: a verified model

Shad OS is a small 32-bit kernel. This project models the four components that carry its
state, each as imperative Dafny on byte-addressed physical memory, each proved against a
simple abstract state, and proves what any run of calls makes of that state.

* **Heap** (`heap.c`). `Heap.Heap` stores 12-byte headers in place; `HeapSpec` is the list of
  blocks they spell out. The central result is history independence: the list is a function of
  the live blocks alone (`HeapLaws.Determined`), from which the round trip, the irrelevance of
  the order of frees and the absence of leaks follow. First fit is characterised by the gaps
  between live blocks, and every operation changes header bytes only.
* **Tasks** (`tasking.c`, `switch_to` in `low_level.S`). `Tasking.Tasking` keeps the 24-byte
  records in heap memory and follows their addresses; `Scheduler` writes the ring starting at
  the current task. Runs are proved to keep one running task, to serve every ready task within
  a bounded number of calls and ticks, and to free each finished task exactly once.
  `ContextSwitch` executes `switch_to` instruction by instruction; `SwitchSystem` and `SwitchRuns`
  put kernel, stacks and processor together.
* **Pages** (`paging.c`). The two-level tables lie in memory; `Paging.Walk` is the walk of the
  processor (32-bit paging, section 4.3 of the Intel SDM, Volume 3A). Masks, shifts and the
  wrapping 32-bit sums are those of the code (`Bits`).
* **Files and shell** (`ramfs.c`, `shell.c`, `string.c`). The file table refines a map from
  names to contents and owns exactly the heap blocks of its non-empty files; the shell is a
  function of the keys typed.

Two arithmetic loops complete the model: decimal printing and the receive ring of
`rtl8139.c`.

## Where the code does not do what it is meant to

* **Freed task records stay linked.** `schedule` frees the record of a finished task but no
  code takes it out of the ring, so every later walk reads two words of freed memory, `state`
  and `next`. What the code depends on is that nothing overwrites these words.
  * After `task_create` the links in memory go round the ring with the new task in it, and every
    finished task is still marked, if and only if the new record, the fabricated frame and the
    headers behind them miss the two words of every freed record
    (`FreedRecords.CreateKeepsWalk`). After any other `kmalloc` the same holds of the one header
    it adds, but for the chance that its size equals the link it overwrites
    (`FreedRecords.KmallocKeepsWalk`).
  * The condition does fail. After one task has come and gone, the next `task_create` obtains
    exactly the record still in the ring (`RecordReuse.ReuseHappens`), and the task that called it
    is never reached again from the new one (`RecordReuse.NextCreateBreaksRing`). A request for
    eight bytes instead puts a header over the freed record and makes the dead task ready, so that
    `schedule` runs it on its freed stack (`ReuseInputs.SmallRequestWakesDead`). And a frame can
    lie over a freed record although the new record is in no ring: the link becomes NULL
    (`ReuseInputs.FrameSpoilsFreed`).
  * Not even a `task_create` that returns -1 leaves the ring alone. It frees the record it had
    carved, but the header behind it stays in memory: the walk is kept if and only if that header
    does no harm (`FreedRecords.FailedCreateKeepsWalk`), and there is a run in which it wakes a dead
    task (`FailingCreate.FailedCreateWakesDead`). All-or-nothing holds of heap list, order and
    states of the tasks, and pids (`SchedulerMemory.CreateAllOrNothing`).
  * The theorems about runs hold for runs in which no freed record is handed out again
    (`Scheduler.NoReuse`): exactly those in which what each allocation takes meets no freed record
    (`FreedRecords.NoReuseMeaning`).
* **`align_up` wraps** for the last seven request sizes, which are rounded to 0. A successful
  `kmalloc(n)` grants at least `n` bytes if and only if `n <= 2^32 - 8`
  (`HeapRuns.KmallocDisjoint`); the others are granted a block without bytes
  (`HeapRuns.WrappedRequestGranted`).
* **The last page of the address space** is never mapped (`PagingLaws.LastPageNeverMapped`): when a
  region reaches it, the rounded end wraps and nothing at all is mapped. A call maps its whole
  region exactly when the end does not wrap and the tables suffice (`PagingLaws.RegionMapped`).
* **`alloctest` leaks** when the second or third of its allocations fails, and only then
  (`AllocTest.LeaksUnlessAllOrNone`, `AllocTest.LeakExists`).
* Payloads are only 4-aligned on this target, since the header has 12 bytes; the constant
  `ALIGNMENT` rounds sizes, not addresses.

## Assumptions

* `kmalloc`, `kfree`, `task_create` and `schedule` are atomic: interrupts inside them are not
  modelled.
* The heap fits below the end of memory; the page structures are 4 KB aligned and do not
  overlap; the command buffer is static memory below the heap.
* Callers free only live pointers, and requests made for files and tasks are at most
  `2^32 - 8`. Process ids do not overflow a C `int`. Task 0 never calls `task_exit`.
* Tasks write neither to block headers, nor to task records, nor to the stack of a suspended task
  (`SwitchSystem.Respects`), and the stack of a task that calls `switch_to` has room for the words
  the call pushes (`SwitchRuns.AtSwitch`). That the kernel itself respects suspended tasks is
  proved. The stack of task 0 lies outside the heap.
* Of the shell commands other than `write` and `rm`, only `alloctest` uses the heap. The sources of
  `usermode_run_demo` and `graphics_demo` (shell.c:245, 310) are not part of this model.
* No code lies at address 2 (the number that marks a finished task).

## Model

| member | source | states |
|---|---|---|
| Bits.AlignUpMeaning | heap.c:38-40 | the masked 32-bit sum is the least multiple of the alignment that is at least the request, except for the last `align - 1` words, where it wraps to 0 |
| Heap.Heap.constructor | heap.c:42-50 | memory holds one free block that fills the heap, at the page after the kernel; only its header was written |
| Heap.Heap.Kmalloc | heap.c:52-79 | headers in memory spell out the list and pointer of the first-fit specification; a failure changes no byte, a success only header bytes of the new list |
| Heap.CoalesceInPlace | heap.c:84-95 | the loop terminates though it does not advance after a merge, stores the fully merged list, and writes headers of that list only |
| Heap.Heap.Kfree | heap.c:97-102 | headers in memory spell out the list with the block freed and all free neighbours merged; the only bytes written are headers of that list and of the block freed, so what merging absorbs is left as it was |
| Heap.Heap.GetStats | heap.c:105-117 | the figures are those of the list; total is used plus free, and total plus 12 bytes per block is the heap size |
| HeapLaws.Conservation | heap.c:105-117 | for any tiling list the statistics account for every byte between its ends |
| HeapFigures.StatsMeaning | heap.c:105-117 | `used` is the sum of the sizes of the live blocks, `free` that of the others, `free_blocks` the number of free places, `total` all but 12 bytes a block |
| HeapFigures.InitialFigures | heap.c:42-50 | right after `heap_init`: 0 used, 8388596 free, in one block |
| HeapFigures.KmallocFigures | heap.c:52-79 | `kmalloc` moves `used` by the size of the block it grants, or by nothing |
| HeapFigures.KfreeFigures | heap.c:97-102 | `kfree` moves `used` by the size of the block it frees |
| HeapLaws.KmallocStep | heap.c:52-79 | a success keeps the list tiled, aligned and without free neighbours and adds exactly one live block of the rounded size plus at most 24 bytes; a failure changes nothing |
| HeapLaws.KfreeStep | heap.c:84-102 | freeing a live pointer keeps the list well formed and removes exactly that block from the live ones |
| HeapLaws.Determined | heap.c:80-95 | two tiling lists without free neighbours and with the same live blocks are equal |
| HeapRuns.ReachableWellFormed | heap.c:42-102 | every state of every run tiles the heap in address order, 4-aligned, with no two free neighbours |
| HeapRuns.HistoryIndependence | heap.c:42-102 | two runs that leave the same blocks live leave the same list |
| HeapRuns.RoundTrip | heap.c:52-102 | freeing what `kmalloc` just returned restores the exact list |
| HeapRuns.FreeOrderIrrelevant | heap.c:84-102 | any order of freeing the same live blocks gives the same list |
| HeapRuns.FreeEverything | heap.c:42-102 | after any run, freeing all live blocks in any order yields the single block of `heap_init` |
| HeapRuns.FirstFitComplete | heap.c:52-79 | NULL exactly when no gap between live blocks has room for header and rounded size; otherwise the start of the lowest gap that has |
| HeapRuns.GrantedBlock | heap.c:53-74 | from the live blocks alone: the block granted is the whole gap when less than 28 bytes would be left over, otherwise exactly the rounded request; a request for nothing yields NULL |
| HeapRuns.WrappedRequestGranted | heap.c:38-54 | on a fresh heap `kmalloc(2^32 - 1)` succeeds with a block of no bytes |
| HeapRuns.KmallocDisjoint | heap.c:52-79 | the returned range lies in the heap and meets no header and no other block; it covers the request if and only if the rounding did not wrap |
| Heap.KmallocFrame | heap.c:52-79 | no byte of a payload that stays live, and no byte outside the heap, changes |
| Heap.KfreeFrame | heap.c:84-102 | no byte of any payload, not even of the one freed, and no byte outside the heap, changes |
| HeapOwners.OwnedApart | heap.c:52-102 | an owned range meets neither another owned range nor a freed one |
| HeapOwners.KfreeStale | heap.c:84-102 | freed memory stays inside free memory when other blocks are freed and merged |
| Tasking.Tasking.Init | tasking.c:47-62 | memory holds a ring of one running task in a fresh record, and the invariant holds |
| Tasking.Tasking.TaskCreate | tasking.c:64-96 | in every state: heap, result and abstract ring are those of the specification; on success record, link and fabricated frame are in memory and nothing else but headers has changed; the ring in memory stays whole when no freed record is handed out |
| Tasking.Tasking.TaskExit | tasking.c:111-116 | marks the current task and dispatches another one, which always exists; the invariant is restored |
| Tasking.FindNext | tasking.c:130-134 | on any memory whose links and marks spell a ring, the walk stops within one lap, at the first task that is not finished or at the current one |
| Tasking.Tasking.Schedule | tasking.c:118-155 | frees the pending task's stack and record, rotates the ring to the next live task, and passes the two stack pointer arguments of `switch_to`; only headers and records change |
| Tasking.Tasking.TaskingTick | tasking.c:158-165 | every fifth live tick schedules, and `switch_to` is called exactly when that finds another task; paused or uninitialised ticks change nothing |
| Tasking.Tasking.SetPaused | tasking.c:41-43 | changes the pause flag and keeps the invariant |
| SchedulerMemory.StepInv | tasking.c:47-165 | every operation, and heap use by the rest of the kernel, keeps ring, states, pending task and memory ownership consistent |
| SchedulerMemory.CreateAllOrNothing | tasking.c:64-96 | a failure at either allocation leaves heap list, order and states of the tasks and next pid exactly as before; what it leaves in the memory of the ring is the matter of `FreedRecords.FailedCreateKeepsWalk` |
| SchedulerMemory.CreateAdds | tasking.c:64-96 | a success adds exactly two live blocks, a fresh pid, and one ring node right after the current one: ready, with the entry point given and a frame of 20 bytes at the top of its own 8192-byte stack |
| SchedulerRuns.OneRunningInFullRing | tasking.c:47-155 | in every state of every run the ring passes through every task ever created and exactly the current one is running |
| SchedulerRuns.WaitStep | tasking.c:91-93 | each call of `schedule` runs a waiting ready task or brings it strictly closer; a create pushes it back by at most one; nothing else moves it |
| SchedulerRuns.BoundedWaiting | tasking.c:118-155 | a task ready d places ahead runs within d + c calls of `schedule`, c being the creates made meanwhile |
| SchedulerRuns.TickCounting | tasking.c:158-165 | over any run the tick counter turns every five live ticks into one call of `schedule` |
| SchedulerTicks.PausedOverRun | tasking.c:41-43 | over any run the pause flag is what `tasking_set_paused` was told last |
| SchedulerTicks.PausedTickDoesNothing | tasking.c:159 | a tick received while it is set leaves the whole kernel as it is |
| SchedulerTicks.FifthTickSchedules | tasking.c:160-164 | from counter 0, four live ticks move only the counter and the fifth is one call of `schedule` |
| SchedulerTicks.BootUnpaused | tasking.c:34-62 | `tasking_init` leaves one running task with pid 0, nothing pending, the counter 0 and the flag clear |
| SchedulerTicks.TaskKept | tasking.c:64-165 | over any run every task keeps its pid, record, stack, entry point and saved stack pointer; only its state changes |
| SchedulerRuns.BoundedWaitingTicks | tasking.c:118-165 | hence within 5 (d + c) live ticks |
| SchedulerRuns.ReapSafety | tasking.c:111-155 | over any run no task is freed twice, and what has been freed or is pending is finished, not current, not task 0, and has its own stack |
| SchedulerRuns.FreedAtNextSchedule | tasking.c:118-128 | a task that exits is freed by the next call of `schedule` and not before |
| RecordReuse.ReuseHappens | tasking.c:64-128 | after one task has come and gone the heap list is what it was, and the next create obtains the record that is still in the ring |
| RecordReuse.ReuseTrapsWalk | tasking.c:91-93 | when the new record is one still linked, the walk in memory from it goes round the places before it for ever and never meets the current task |
| RecordReuse.NextCreateBreaksRing | tasking.c:64-128 | from any state with nothing pending, the create after a finished task cuts the current task off: following links in memory from the new task never meets it |
| TaskCreation.CreatedRing | tasking.c:64-96 | when no freed record is handed out again, memory holds the old ring with the new task right after the current one |
| FreedRecords.NoReuseMeaning | heap.c:52-79 | no freed record is handed out exactly when the block granted and the header behind it meet none |
| FreedRecords.KmallocKeepsWalk | heap.c:59-74 | after `kmalloc` the walk along the ring in memory is what it was if and only if the header of the rest spares the last two words of each freed record or happens to repeat the link |
| FreedRecords.CreateKeepsWalk | tasking.c:64-96 | after `task_create` memory spells the ring with the new task, finished tasks marked, if and only if record, frame and new headers spare the last two words of each freed record |
| FreedRecords.FailedCreateKeepsWalk | tasking.c:65-69 | a `task_create` that fails keeps the walk along the ring in memory if and only if the header it left for a moment spares the last two words of each freed record or happens to repeat the link |
| FailingCreate.FailedCreateWakesDead | tasking.c:65-69 | a run of legal calls after which `task_create` returns -1, the heap list is unchanged, and the dead task is ready and next in memory, its stack being in other hands |
| ReuseInputs.SmallRequestWakesDead | tasking.c:124-134 | after `tasking_init` and one finished task, `kmalloc(8)` leaves a ring in memory in which the dead task is ready and next |
| ReuseInputs.FrameSpoilsFreed | tasking.c:77-93 | a run after which `task_create` gets a record of no ring, yet its frame turns the link of a freed record into NULL |
| ContextSwitch.Machine.SwitchTo | low_level.S:198-213 | saves the caller's registers, stack pointer and return address where the first argument says, loads those of the frame the second names, and writes nothing else |
| TaskSwitch.SwitchTasks | tasking.c:152 | run on the records of the ring, `switch_to` keeps heap and ring in memory and stores the outgoing stack pointer in the outgoing record |
| SwitchSystem.KernelSpares | tasking.c:64-165 | no kernel operation (create, exit, schedule with its frees, tick, other use of the heap) changes a byte of the stack of a task that has not been freed |
| SwitchRuns.SwitchCallable | tasking.c:152 | what `switch_to` demands of its arguments follows from the invariant and from the caller pushing them on its own stack |
| SwitchRuns.NextInv | tasking.c:118-155 | every event, exits and reused stacks included, leaves each suspended task its context on its own stack |
| SwitchRuns.BootSystem | tasking.c:47-62 | right after `tasking_init` the invariant of these runs holds |
| SwitchRuns.ResumedExactly | low_level.S:198-213 | over any run of kernel calls, switches and computation, a task resumes with exactly the edi, esi, ebx, ebp, stack pointer and return address of its last call |
| SwitchRuns.StartsInTrampoline | tasking.c:77-83 | over any such run a task that never ran starts in the trampoline with zero registers and its stack pointer at the very end of its 8192-byte stack |
| SwitchMachine.CallKernel | tasking.c:41-165 | every call of the kernel's methods on memory is one event of such a run |
| SwitchMachine.CallSwitch | tasking.c:152 | and so is `switch_to` run on the records of the ring |
| Paging.Paging.Init | paging.c:83-101 | memory holds exactly the identity map of the first 16 MB; only the tables change |
| Paging.Paging.IdentityMapRegion | paging.c:63-81 | for all 32-bit arguments the loop terminates and memory holds the map of the specification; only the tables change |
| Paging.WalkIdentity | paging.c:63-98 | walking an address yields that address when its page is mapped and nothing otherwise |
| Paging.EntryRights | paging.c:74-91 | every entry in use grants present, writable and user (the low bits are 7), every other entry is 0 |
| Paging.WalkAfterCalls | paging.c:63-98 | after initialisation and any sequence of calls an address is absent or itself, the first 16 MB are present and the last 4 KB absent |
| Paging.TablesNotShared | paging.c:69-75 | distinct present directory slots refer to distinct tables |
| Paging.ExtraTablesCounted | paging.c:70-75 | the counter of extra tables is the number of present directory slots from index 4 on |
| PagingLaws.MapAllInv | paging.c:63-98 | over any sequence of calls nothing present becomes absent, no directory slot changes its table, and the first 16 MB stay mapped |
| PagingLaws.MapsPrefix | paging.c:67-80 | a call maps exactly the prefix of its range up to the first page that needs a table when none is left |
| PagingLaws.StopMeaning | paging.c:69-72 | that prefix needs no more new tables than were left, and one page more would |
| PagingLaws.FullyMapped | paging.c:67-80 | a range is fully mapped if and only if it touches no more directory slots without a table than tables were left |
| PagingLaws.RegionPages | paging.c:64-67 | the pages of a call are those its region meets, unless the rounded end wraps: then there are none |
| PagingLaws.RegionMapped | paging.c:63-81 | a call maps its whole region if and only if the rounded end does not wrap and the missing tables are no more than those left |
| PagingLaws.LastPageNeverMapped | paging.c:64-67 | no sequence of calls ever maps the last page of the address space |
| PagingLaws.Idempotent | paging.c:63-81 | mapping a region twice is mapping it once, even when the tables ran out |
| PagingLaws.Commute | paging.c:63-81 | two regions that fit together give the same pages and table assignments in either order |
| Strings.Strlen | string.c:6-10 | the length is that of the string before the first NUL |
| Strings.Strcmp | string.c:12-15 | the result is 0 exactly for equal strings and negative exactly for lexicographically smaller ones |
| RamFs.RamFs.Init | ramfs.c:28-35 | every file is forgotten, nothing is freed, and the invariant holds |
| RamFs.RamFs.Find | ramfs.c:37-42 | the slot in use with that name, or -1 |
| RamFs.RamFs.FindFree | ramfs.c:44-49 | the first slot not in use, or -1 |
| RamFs.MemCpy | ramfs.c:81-83 | the destination holds the old source bytes and nothing else changes |
| RamFs.RamFs.Write | ramfs.c:53-78 | state and result are those of the specification for the bytes the source held on entry, even inside the file's own old block; no other live byte changes |
| RamFs.RamFs.Read | ramfs.c:87-93 | fails exactly for absent names; otherwise the memory returned holds the contents of the file |
| RamFs.RamFs.Delete | ramfs.c:95-103 | state and result are those of the specification; no other live byte changes |
| RamFsLaws.WriteRefines | ramfs.c:53-78 | succeeds exactly when the name is short enough, present or room for it, and the heap suffices; then the map is updated; heap exhaustion leaves a new name with empty contents; other failures change nothing |
| RamFsLaws.DeleteRefines | ramfs.c:95-103 | removes exactly that name, and fails exactly when it is absent |
| RamFsLaws.RoomLeft | ramfs.c:44-49 | a free slot exists exactly when there are fewer than 32 files |
| RamFsRuns.StepInv | ramfs.c:28-103 | every file operation, and heap use by others, keeps names distinct, free slots empty, and one large enough block per non-empty file |
| RamFsRuns.LastWriteRead | ramfs.c:53-103 | over any run a file that is not deleted holds what the last successful write put there, failed writes of it included |
| RamFsRuns.WriteOthers | ramfs.c:53-78 | writing a file leaves everybody else's live blocks alone |
| RamFsRuns.DeleteAllFrees | ramfs.c:95-103 | deleting all files in any order leaves the heap list that the other live blocks determine |
| RamFsRuns.NothingLeaks | ramfs.c:28-103 | a run of file operations that ends by deleting all files restores the exact heap list it started from |
| Shell.SplitCommand | shell.c:21-30 | cuts the line in place at its first space; the two strings left in memory are the first word and the arguments |
| Shell.Shell.Cat | shell.c:162-177 | prints usage, an error, or the contents and a newline when they do not end in one |
| Shell.Shell.WriteFile | shell.c:179-194 | files and output are those of the specification on the string in memory |
| Shell.Shell.Remove | shell.c:196-210 | files and output are those of the specification |
| Shell.Shell.Execute | shell.c:276-321 | files, heap list and output are those of the specification on the line in the buffer |
| AllocTest.CmdAllocTest | shell.c:87-148 | the heap list is that of three allocations and, when all succeed, three frees; no byte that was live changes |
| AllocTest.LeaksUnlessAllOrNone | shell.c:99-137 | `alloctest` restores the heap list if and only if its first allocation fails or all three succeed; it frees nothing of others |
| AllocTest.LeakExists | shell.c:99-106 | three calls after `heap_init` reach a heap on which it keeps the first block |
| Shell.Shell.HandleChar | shell.c:330-347 | line, files and output are those of the specification; the buffer is never overrun |
| ShellLaws.ExecutedLine | shell.c:330-347 | for any keys without NUL the line executed is the backspace edit of the keys since the last newline, capped at 127 |
| ShellLaws.BackspaceUndoes | shell.c:336-346 | a character typed below the limit and erased at once leaves no trace, whatever is typed before and after |
| ShellLaws.BackspaceAtLimit | shell.c:336-346 | at the limit the character is dropped and the backspace removes the one before |
| ShellTyped.ScreenShowsLine | shell.c:336-346 | since the prompt the screen shows exactly the line in the buffer, whatever is typed, and the prompt is never erased |
| ShellTyped.SplitMeaning | shell.c:21-30 | any line is its first word, some spaces, and arguments that start with none; without a space there are no arguments |
| ShellTyped.NothingToDo | shell.c:162-210 | an empty line only prompts again; `cat`, `write` and `rm` without a name say how they are used |
| ShellTyped.EchoPrints | shell.c:286-288 | `echo T` prints T and a newline and changes no file |
| ShellTyped.WriteAnswers | shell.c:179-194 | `write N T` names the file and counts the characters in decimal, or says that it failed |
| ShellTyped.RmThenCat | shell.c:196-210 | typing `rm N` removes exactly that file and says whether there was one; `cat N` then reports it missing |
| ShellTyped.CatShows | shell.c:162-177 | `cat` shows the contents, completed to end in a newline |
| ShellLaws.WriteThenCat | shell.c:162-194 | typing `write N T` and `cat N` prints exactly T and a newline |
| Decimal.TerminalWriteUint | string.c:30-43 | the text is the one canonical decimal string that denotes the number; every write is inside the 11-byte buffer |
| Decimal.CanonicalUnique | string.c:30-43 | at most one digit string without leading zero denotes a given number |
| RxRing.Receiver.IrqHandler | rtl8139.c:49-70 | takes the frames of the specification; after any sequence of interrupts the offset is a multiple of 4 below 8192 equal to the room of all frames modulo 8192, each CAPR value plus 16 is that offset modulo 2^16, and header reads stay in the buffer |
| RxRing.AdvanceIsModular | rtl8139.c:64-65 | one step is addition of the rounded room modulo the ring size |
| RxRing.TakesLongestRun | rtl8139.c:56-68 | one interrupt takes the longest run of frames it can: each length is the second 16-bit word of the header that starts where the room of the frames before ends, between 4 and 1600; it stops at the 64th, at an empty ring or at another length |
| RxRing.RoomIsLeast | rtl8139.c:64 | the room of a frame is the least multiple of 4 that holds it and four bytes |

## Left out

- SchedulerMemory.StepInv: an allocation that hands out a freed record still linked is excluded, since the ring does not survive what its owner may write there; see the section above.
- SchedulerRuns.OneRunningInFullRing: runs with such an allocation are excluded.
- SchedulerRuns.WaitStep: steps with such an allocation are excluded.
- SchedulerRuns.BoundedWaiting: runs with such an allocation are excluded.
- SchedulerRuns.BoundedWaitingTicks: runs with such an allocation are excluded.
- SchedulerRuns.ReapSafety: runs with such an allocation are excluded.
- SchedulerRuns.FreedAtNextSchedule: runs with such an allocation are excluded.
- SwitchRuns.ResumedExactly: runs with such an allocation are excluded; what the compiler pushes before a call of `switch_to` is part of the computation of the task, not derived from C code.
- Tasking.Tasking.TaskExit: task 0 does not exit.
- RamFs.MemCpy: ranges that overlap are excluded; `ramfs_write` copies into a fresh block.
- RamFs.RamFs.Write: sizes above 2^32 - 8 are excluded, since `kmalloc` would grant a block that is too small.
- Tasking.Tasking.Init: requires room for the record of task 0, because the code does not test the pointer.
- TaskSwitch.SwitchTasks: what the compiled `schedule` pushes before calling `switch_to` is a precondition on the stack, not derived from C code.
- Shell.Shell.Execute: what the commands other than `echo`, `cat`, `write` and `rm` print is one opaque output.
- Terminal drawing, colours, the cursor movement of a backspace and the welcome text: the output is a sequence of characters and fixed messages.
- `ramfs_list`, `tasking_list`, `strncmp`, `memset` and hexadecimal printing: plain loops over state that is modelled.
- Loading CR3, setting the paging bit, and the page fault handler.
- The interrupt table, system calls, ring 3 entry and exit, port input and output, the PIC, PCI, serial port and mouse drivers, network frames, and initialisation and transmission of the network card.
- When timer interrupts arrive: fairness is stated in calls of `schedule` and of the tick handler.
