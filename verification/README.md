# Kernel subsystems and small tools, modelled and proved in Dafny

This project models the stateful core of the profanOS kernel and three of its smaller programs, and
proves what they keep over every call and every run.

- **File system** (`Lists`, `Layout`, `VirtualDisk`, `Containers`, `CtrInit`, `CtrGrow`, `CtrShrink`, `CtrSize`,
  `CtrDelete`, `CtrRw`, `Metadata`, `Filesystem`). Raw sectors of 512 bytes on one virtual disk. A container is a header, a
  chain of locators with 126 links each, and cores with 511 payload bytes each. `ContainerOk` says when sectors
  hold such a chain, `Content` is the byte array it stands for, and `Filesys` is the whole disk seen as two maps
  from container ids, to byte arrays and to the names in the headers. Its methods are the program's operations on bytes in sectors, and their
  contracts speak of the maps.
- **Directories and paths** (`Directory`, `DirectoryOps`, `Paths`), kept in files of that file system whose name in
  the header begins with `D`.
- **Physical allocator** (`SnowState`, `SnowSteps`, `Snowflake`). The block list threaded through table slots is
  read as a sequence of blocks in address order; the table lives in memory it allocates for itself.
- **Paging** (`ScubaState`, `ScubaRoom`, `ScubaSteps`, `ScubaMap`, `ScubaFork`, `ScubaWalk`,
  `ScubaNeeds`, `Scuba`). Directories and tables in frames taken from that same allocator, read as one flat map from
  virtual pages for each directory, which `ScubaWalk` proves to be the translation the processor makes.
- **Process manager** (`ProcessState`, `ProcessSteps`, `ProcessKill`, `ProcessSpared`, `ProcessReparent`,
  `ProcessManager`, `ProcessRuns`, `ProcessExamples`). Process table, run queue, timed
  sleepers, wait relation and parent tree. Kernel routines are not preempted, so every method is one atomic step;
  `process_wait` is two, split where it hands the processor over. `Valid()` is the invariant of every reachable
  state, and ticks are a parameter.
- **Editor** (`RimText`, `RimTabs`, `RimFile`, `RimEdits`, `RimView`, `RimPadding`, `RimKeys`, `Rim`). One flat
  buffer of cells and an index of line starts, read as a list of rows, and those as lines of text with a cursor.
- **Addon dependencies** (`Addons`) and **search with context** (`Grep`).

How to read it: code that changes state is a class, its loops are methods with invariants, and each class has a
`Valid()` predicate and a function that gives the abstract value. `sys_fatal` is an error that must be unreachable
(or is reached exactly under a stated condition); `sys_error` and `sys_warning` are error returns. Memory fresh from
`malloc` or `realloc` is taken to hold zeros, since the program writes every sector and buffer before it reads it.

Where the code and what one would expect of it differ, the code is followed:

- `fs_cnt_set_size` rounds the old and the new size differently (`kernel/filesys/ctr_size.c:213-216`), so the number of
  cores is no function of the size. `SlackLaw` gives its exact history and `NeverShort` the lower bound.
- `process_wakeup` clears `wait_pid` (`kernel/system/process.c:445`), so a woken waiter collects the first dead child,
  which need not be the one it named (`AnotherChild` is such a run). A waiter woken by somebody else before any
  child has died runs into the fatal error (`WokenTooSoon`), and so does one that was told of a death and whose dead
  child `process_info` then gives to the kernel (`ChildGivenAway`). `Runs.WaitResume` says exactly when the named one
  is returned, and that the fatal error needs such a wakeup, a child taken away, or the kernel as the waiter.
- `process_sleep` computes its date in 32 bits. A sleep of 4294968 milliseconds or more ends too early, as the product
  with 1000 does not fit (`DateExact`), and a date that wraps to 0 stands for no date. The list of sleepers stays
  right exactly when that does not happen (`DateLost`; `DateLostInput` is a date that wraps), and `Sleep` excludes it.
- `process_info` may give a process to the kernel. The invariant names the processes a child was taken from and the
  zombies given away, and excuses only those (`ReparentKeeps`); nobody new has to be excused exactly as
  `ReparentFamily` says, and `ReparentStrands` is an input where somebody must be.
- The paging routines do not check for memory. The model says exactly which calls find enough (`ok`), from what the
  allocator has given out and what the call will ask for.
- Unmapping a page through a table shared with the kernel removes it for the kernel and for every other directory
  that shares the table (`kernel/system/scubasuit.c:207-226`). `UnmapIsLocal` is the exact condition, `UnmapSeen` an
  input.
- `reallign_tabs` decides by the line's length whether there is work (`zapps/f/rim.c:713-716`) and so misses an edit
  that keeps the length. `RealignMisses` is such an edit, `RealignExact` the exact condition, and `InsertRepairable`,
  `DeleteRepairable` and `MovedText` show that every edit made off padding meets it. Page up and page down put the
  cursor on padding, as they clip it without `cursor_tab_allign` (`zapps/f/rim.c:986-1001`; `PagedOntoPadding` is such a
  run). There a character leaves its aligned line aligned if and only if a tab follows (`TypedOnPadding`), a tab or
  a deletion always does, and a line break never, since its first half is not realigned (`zapps/f/rim.c:1058-1059`).
- On a line that is misaligned in that way, realigning may take away more cells than stand behind the cursor, and the
  cursor is then behind its line (`CursorLeaves`). It stays on it wherever the text up to it asks for at least that
  many cells (`FullTo`), as in every aligned line.
- The comment that heads `usg_dir.c` gives directory ids another width than its code, which stores four bytes.
- A path with a leading slash starts at the directory given and not at the root, unless it is only that slash, and a
  trailing slash looks up an empty name (`kernel/filesys/usg_ptsid.c:78-90`).

## Model

| member | source | states |
|---|---|---|
| `Layout.SidRoundTrip` | include/kernel/kernel/butterfly.h:23-28 | a sector id gives back its disk and sector, and is the null id only for disk 0, sector 0 |
| `Layout.LittleEndian` | kernel/filesys/ctr_size.c:236-237 | a word is stored with its lowest byte first, reads back, and leaves every other byte |
| `Layout.SetSizeFields` | kernel/filesys/ctr_size.c:236-237 | storing the size in a header leaves every other byte of it, the name included |
| `VirtualDisk.Vdisk.constructor` | kernel/filesys/vdisk.c:16-35 | a new disk has no sector used and the stack of free ids complete |
| `VirtualDisk.Vdisk.NoteSectorUsed` | kernel/filesys/vdisk.c:44-59 | takes the sector on top of the free stack out of the unused ones, or refuses a used one and changes nothing; the stack stays a permutation of the unused sectors |
| `VirtualDisk.Vdisk.NoteSectorUnused` | kernel/filesys/vdisk.c:61-72 | returns a used sector to the stack, or refuses an unused one and changes nothing; the stack stays a permutation of the unused sectors |
| `VirtualDisk.Vdisk.Extend` | kernel/filesys/vdisk.c:78-98 | adds sectors, all of them free; used sectors and their data stay; refuses to shrink |
| `VirtualDisk.Vdisk.GetUnusedSector` | kernel/filesys/vdisk.c:100-105 | names an unused sector, extending the disk by 1000 sectors exactly when all are used |
| `VirtualDisk.MarkUsedOk` | kernel/filesys/vdisk.c:44-59 | taking the next free sector keeps the free stack above the used count a permutation of the unused sectors, and adds exactly that sector to the used ones |
| `VirtualDisk.MarkUnusedOk` | kernel/filesys/vdisk.c:61-72 | giving a sector back keeps the free stack a permutation of the unused sectors, and removes exactly that sector from the used ones |
| `VirtualDisk.ExtendedOk` | kernel/filesys/vdisk.c:78-98 | extending keeps the same used sectors with the same data, and the free stack a permutation of the unused ones |
| `VirtualDisk.FullIffAllUsed` | kernel/filesys/vdisk.c:100-105 | the used count reaches the size exactly when every sector is used; otherwise the top of the stack is an unused sector |
| `CtrInit.InitSector` | kernel/filesys/ctr_init.c:19-39 | an unused sector becomes a used one that is empty but for its tag; a used one is refused |
| `CtrInit.Init` | kernel/filesys/ctr_init.c:41-96 | a new container: a header with the name cut to its field and filled up with zeros, and one empty locator, in two fresh sectors, no core, size 0; null on a disk that is not mounted |
| `CtrGrow.FillLoca` | kernel/filesys/ctr_size.c:113-138 | the empty slots of a locator are filled, in order, with links to fresh empty cores, as many as are asked for or fit |
| `CtrGrow.WalkToLast` | kernel/filesys/ctr_size.c:83-107 | the walk along the locators ends on the last one of the chain |
| `CtrGrow.LinkNewLocator` | kernel/filesys/ctr_size.c:145-167 | a fresh locator is linked behind a full last one, and the chain so far is stored |
| `CtrGrow.GrowSize` | kernel/filesys/ctr_size.c:70-191 | the chain gains exactly the cores asked for, all empty and in fresh sectors, behind the old ones, which stay; every locator but the last is full and links form a prefix; only the old last locator and fresh sectors are written |
| `CtrShrink.RemoveCores` | kernel/filesys/ctr_size.c:34-60 | cores are unlinked and freed from the end of one locator, as many as are asked for or there |
| `CtrShrink.ShrinkSize` | kernel/filesys/ctr_size.c:16-68 | the recursive shrink frees exactly the last cores, as many as asked for, and the locators left empty behind the first, save possibly one empty trailing locator; the rest of the chain stays stored; it returns the number still to remove where the locator itself went, 0 where it stays changed, and -2 where the chain beyond it took the whole request |
| `CtrShrink.ShrunkBeyond` | kernel/filesys/ctr_size.c:16-68 | cutting the chain behind a locator that stays is cutting the chain |
| `CtrSize.SlackLaw` | kernel/filesys/ctr_size.c:213-234 | over any run of set_size calls the surplus of cores over ceil(size/511) rises by exactly one on each call that lands on a nonzero multiple of 511 and is otherwise unchanged |
| `CtrSize.NeverShort` | kernel/filesys/ctr_size.c:213-234 | over any run of set_size calls there are always at least ceil(size/511) cores, so shrinking never asks for more cores than there are |
| `CtrSize.SetSize` | kernel/filesys/ctr_size.c:193-239 | growing or shrinking leaves a well-formed container of the new size and the core count the rounding gives; core bytes that stay are kept, bytes of new cores are zero; of the header only the size is written, and nothing outside the container and fresh sectors; refused exactly on what is no container header; an id of this disk lies inside it |
| `CtrSize.GetSize` | kernel/filesys/ctr_size.c:241-264 | the size recorded in the header, all ones for what is no container header; an id of this disk lies inside it |
| `CtrSize.KeptBytes` | kernel/filesys/ctr_size.c:193-239 | byte by byte: after a resize a byte is the old one where a core was, and zero in a new core |
| `CtrDelete.DeleteCore` | kernel/filesys/ctr_del.c:16-44 | frees a used core sector of the mounted disk and nothing else; anything else is refused unchanged |
| `CtrDelete.DeleteCores` | kernel/filesys/ctr_del.c:70-79 | frees exactly the cores linked from one locator |
| `CtrDelete.DeleteLocaRecur` | kernel/filesys/ctr_del.c:46-95 | frees exactly the locators from here to the end of the chain and their cores |
| `CtrDelete.Delete` | kernel/filesys/ctr_del.c:97-132 | frees exactly the header, all locators and all cores, surplus ones included; refused exactly on what is no container header; an id of this disk lies inside it |
| `CtrRw.RwCore` | kernel/filesys/ctr_rw.c:16-54 | reads or writes exactly the bytes of one core from an offset on, as many as fit; refuses what is no core |
| `CtrRw.RwLoca` | kernel/filesys/ctr_rw.c:56-143 | the signed sliding index over locators and links, the skip of whole locators included, transfers exactly the asked byte range of the chain |
| `CtrRw.Rw` | kernel/filesys/ctr_rw.c:145-191 | the checks on header and bounds, then the transfer of exactly the asked byte range; an id of this disk lies inside it |
| `CtrRw.WritePiece` | kernel/filesys/ctr_rw.c:39-48 | a write that has reached byte n of its range stays right when one core takes its part |
| `CtrRw.RwContent` | kernel/filesys/ctr_rw.c:145-191 | seen as a flat byte array: a read gives exactly the slice and changes nothing, a write replaces exactly the slice |
| `Containers.ReplaceContainer` | kernel/filesys/ctr_size.c:193-239 | when an operation touches only its container and fresh sectors, all containers stay well formed and disjoint, and no sector is used outside them |
| `Containers.RemoveContainer` | kernel/filesys/ctr_del.c:97-132 | after a delete the other containers stay well formed and disjoint, and the used sectors are exactly theirs |
| `Filesystem.HeadsAreContainers` | kernel/filesys/ctr_size.c:193-211 | the checks at the start of an operation accept exactly the heads of existing containers |
| `Filesystem.DeletedCount` | kernel/filesys/ctr_del.c:97-132 | a delete lowers the used count by one for the header and one for every locator and core held |
| `Filesystem.Filesys.constructor` | kernel/filesys/vdisk.c:16-35 | an empty disk is a file system without files |
| `Filesystem.Filesys.Init` | kernel/filesys/ctr_init.c:41-96 | adds one empty file under a new id with the name given; all other files and names stay byte for byte |
| `Filesystem.Filesys.GetMeta` | kernel/filesys/ctr_init.c:98-119 | reads the name field of any sector on the disk, which for a file is its name; nothing for an id of another disk or beyond the end |
| `Metadata.MetasReplaced` | kernel/filesys/ctr_size.c:193-239 | a step that touches one container and fresh sectors, and not the name in its header, leaves the names of all files |
| `Filesystem.Filesys.SetSize` | kernel/filesys/ctr_size.c:193-239 | the file gets its new length, keeps the first min(old, new) bytes and has zeros where new cores begin; all other files, all names, and every byte of its header but the size stay; an id of this disk lies inside it |
| `Filesystem.Filesys.GetSize` | kernel/filesys/ctr_size.c:241-264 | the length of the file, all ones for what is no file; an id of this disk lies inside it |
| `Filesystem.Filesys.Read` | kernel/filesys/ctr_rw.c:193-195 | fills the buffer with exactly the slice of the file; nothing changes; refused exactly out of bounds or for what is no file; an id of this disk lies inside it |
| `Filesystem.Filesys.Write` | kernel/filesys/ctr_rw.c:197-199 | replaces exactly the slice of the file; all other files and all names stay byte for byte; refused exactly out of bounds or for what is no file; an id of this disk lies inside it |
| `Filesystem.Filesys.Delete` | kernel/filesys/ctr_del.c:97-132 | removes one file and its name; the sectors in use are exactly those before less the ones the container owned; an id of this disk lies inside it |
| `Directory.AddDecodes` | kernel/filesys/usg_dir.c:96-150 | the bytes left by adding an element, the overlapping shift of the names included, decode to the old elements followed by the new one, for every well-formed directory |
| `Directory.OldElementKept` | kernel/filesys/usg_dir.c:123-128 | every old element still decodes to the same id and name after the shift |
| `DirectoryOps.MoveNames` | kernel/filesys/usg_dir.c:123-128 | the shift from the end moves every byte of the name area eight places up although source and target overlap |
| `DirectoryOps.AddPair` | kernel/filesys/usg_dir.c:119-140 | the buffer steps leave one more pair, the moved names and the new name |
| `DirectoryOps.IsDir` | kernel/filesys/usg_dir.c:16-31 | for a file: whether its name begins with `D`; for any other id what the byte there says, and no where there is no sector |
| `DirectoryOps.AddElement` | kernel/filesys/usg_dir.c:96-150 | the directory file decodes to its old elements and the new one, every other file and every name stays, so what was a directory still is one, and all directories stay well formed; refused exactly for a null id or what is no directory |
| `DirectoryOps.GetDirContent` | kernel/filesys/usg_dir.c:47-94 | the elements the directory decodes to, or their number alone; -1 for what is no directory; nothing changes |
| `Paths.RestShorter` | kernel/filesys/usg_ptsid.c:26-39 | each recursion of the lookup has a strictly shorter path left |
| `Paths.LookupIsWalk` | kernel/filesys/usg_ptsid.c:15-76 | where names in directories are plain, the recursive search on joined components is the walk along them: through the first usable entry of each name, and at the last one to the first entry of that name |
| `Paths.PathIsWalk` | kernel/filesys/usg_ptsid.c:78-90 | the same for relative paths and for paths with a leading slash, which both start at the directory given |
| `Paths.CutName` | kernel/filesys/usg_ptsid.c:26-39 | finds the end of the first component and of the slashes behind it |
| `Paths.RecPathToSid` | kernel/filesys/usg_ptsid.c:15-76 | computes the recursive lookup on the directories as stored, and changes no file |
| `Paths.PathToSid` | kernel/filesys/usg_ptsid.c:78-90 | sector 0 of disk 1 for a single slash, otherwise the lookup with one leading slash dropped |
| `Paths.DirsAre` | kernel/filesys/usg_dir.c:16-31 | the ids the lookup goes through are exactly those of directories |
| `ProcessState.SwapRemoveOk` | kernel/system/process.c:170-197 | removing an entry by moving the last one into its place takes out that entry and no other, and keeps the list free of duplicates |
| `ProcessState.QueueHasRoom` | kernel/system/process.c:103-119 | in every reachable state a process that is neither in queue nor running is not on the run queue and the queue has room, so both fatal errors there are out of reach |
| `ProcessState.TsleepHasRoom` | kernel/system/process.c:391-404 | when a process is put on the list of sleepers, a timed sleeper that is put to sleep again included, it is off the list and the list has room, so the unchecked write stays inside |
| `ProcessState.ChainToKernel` | kernel/system/process.c:279-299 | as long as nobody is an orphan, every live process has a chain of live parents down to pid 0, pids strictly falling along it |
| `ProcessReparent.ReparentKeeps` | kernel/system/process.c:735-737 | giving a process to the kernel keeps every invariant, the chains of parents included, when the parent it is taken from and a zombie given away past its cleaning are noted |
| `ProcessReparent.ReparentFamily` | kernel/system/process.c:735-737 | with nobody to excuse before, nobody is to be excused afterwards if and only if the process was nobody's last hope (a process waiting for any child, with no other live one) and is no zombie past its cleaning |
| `ProcessReparent.ReparentStrands` | kernel/system/process.c:735-737 | an input: in a state that satisfies every invariant a process waits for any child, and its only one is given away |
| `ProcessManager.Manager.Reparent` | kernel/system/process.c:715-737 | sets the parent of exactly that process to 0; -1 exactly for a pid that is not in use; all invariants hold afterwards, so every other call may follow |
| `ProcessState.NoLostWakeup` | kernel/system/process.c:497-507 | in every reachable state a sleeper that waits for a pid waits for a live process, and one that waits for any child has a live child unless a child was taken from it |
| `ProcessState.NobodyOverslept` | kernel/system/process.c:161-186 | when the cached date is zero or in the future, no sleeper is past its date |
| `ProcessManager.Manager.constructor` | kernel/system/process.c:224-276 | after initialisation the kernel runs, the idle process exists, and all invariants hold |
| `ProcessManager.Manager.PidToPlace` | kernel/system/process.c:65-75 | the slot of a pid in use, or -1 exactly when there is none |
| `ProcessManager.Manager.RefreshInteract` | kernel/system/process.c:161-168 | the cached date becomes the earliest date on the list of sleepers, 0 exactly when it is empty |
| `ProcessManager.Manager.RemoveFromTsleep` | kernel/system/process.c:188-197 | exactly the given process leaves the list of sleepers |
| `ProcessManager.Manager.TsleepAwake` | kernel/system/process.c:170-186 | wakes exactly the sleepers due, skipping none while the list shrinks under the sweep; the fatal error there is out of reach |
| `ProcessManager.Manager.FreeProcess` | kernel/system/process.c:132-146 | a dead process loses its memory, and its slot too unless a live parent other than the kernel may still ask for it |
| `ProcessManager.Manager.CleanKilled` | kernel/system/process.c:148-159 | cleans exactly the dead processes other than the current one, and remembers whether that one is left |
| `ProcessManager.Manager.Schedule` | kernel/system/process.c:610-653 | either returns early without change, or wakes who is due, cleans up, and takes the next process of the queue round robin (the idle one when it is empty): the whole new table is given; afterwards nobody is asleep past the date, and every invariant holds |
| `ProcessManager.SleeperStays` | kernel/system/process.c:610-653 | a schedule leaves a sleeper that is not due exactly as it is |
| `ProcessManager.Manager.Create` | kernel/system/process.c:279-343 | a child of the current process, asleep, in a slot that was free; -1 exactly when no slot is |
| `ProcessManager.Manager.Sleep` | kernel/system/process.c:367-413 | puts exactly that process to sleep until its date (in words that wrap around), or for ever, and off the run queue; a sleep of the current process reschedules, which gives the whole table; refused exactly for a pid that is not live or is idle |
| `ProcessManager.DateExact` | kernel/system/process.c:400 | a sleep ends as many ticks after now as it has milliseconds, in words that wrap, if and only if the product with 1000 fits a word |
| `ProcessManager.AsleepUntil` | kernel/system/process.c:391-404 | a process put to sleep keeps everything but its state and date; the date is 0 exactly for a sleep without end and one whose date is lost |
| `ProcessManager.DateLost` | kernel/system/process.c:400-403 | for every table, time and duration: the list of sleepers is right after its unconditional append if and only if the sleep is for ever or its date does not wrap to 0 |
| `ProcessManager.DateLostInput` | kernel/system/process.c:400-403 | an input: a sleep of one millisecond on the last tick before the timer wraps |
| `ProcessManager.Manager.Wakeup` | kernel/system/process.c:416-460 | wakes exactly that sleeper and clears what it waited for; with handover the current process sleeps until that one dies, and the rest of the table is as a schedule leaves it; refused exactly for a pid that does not sleep |
| `ProcessManager.Manager.KillTree` | kernel/system/process.c:462-517 | the recursion ends, as the number of live processes falls, and leaves the target dead with its return code and all its descendants dead |
| `ProcessKill.Survivors` | kernel/system/process.c:497-517 | once no live process is an orphan, nobody that is still alive was below the process killed |
| `ProcessKill.KillDone` | kernel/system/process.c:462-526 | after the loop exactly the live processes outside the killed subtree are alive, and nobody is left orphaned or waiting for the dead |
| `ProcessSpared.SparedWoke` | kernel/system/process.c:501-506 | when the loop comes to a slot, exactly those that wait for the dying process, by its pid or as any child, are told: a sleeper is woken, another loses its wait |
| `ProcessSpared.SparedRecursed` | kernel/system/process.c:508-516 | killing a child with all below it, and then going on, leaves every entry as one kill would: the dead as zombies that return 0, the told told, the rest untouched |
| `ProcessSpared.WokenExactly` | kernel/system/process.c:501-506 | after a kill a sleeper that survives is awake if and only if it waited for somebody who died |
| `ProcessManager.Manager.Kill` | kernel/system/process.c:462-526 | kills exactly the target and its descendants, for a caller that is the target or outside its subtree; gives every entry of the table afterwards: return codes, freed zombies, woken waiters, and all else unchanged; a process that kills itself then hands over the processor; refused exactly for pid 0, idle, dead or unknown processes; all invariants hold afterwards |
| `ProcessManager.Manager.FindDeadChild` | kernel/system/process.c:532-543 | the first dead child of the current process, or none |
| `ProcessManager.Manager.Wait` | kernel/system/process.c:528-578 | collects the dead child asked for, or the first dead one, with its return code and frees exactly its memory and its slot, or fails or returns 0 exactly when the source does, or blocks the caller on a live child, while no child it waits for is dead, and reschedules |
| `ProcessManager.Manager.WaitResume` | kernel/system/process.c:580-602 | a woken waiter collects the first dead child, whatever pid it named, and frees exactly its memory and its slot; the fatal error is reached exactly when its wait was cleared and it has no dead child |
| `ProcessRuns.Runs.WaitResume` | kernel/system/process.c:580-602 | over every run: the fatal error needs the kernel as the waiter, a wakeup from outside, or a child taken from the waiter; a waiter whose wait was cleared is given the process it named if and only if that is dead and no other dead child stands in an earlier slot |
| `ProcessRuns.Runs.Wait` | kernel/system/process.c:569-575 | a process that blocks here waits for a child of its own, and whoever woke it before is forgotten |
| `ProcessRuns.Runs.Kill` | kernel/system/process.c:499-507 | exactly those who waited for a process that died are told; whoever was told has a dead child to collect, and keeps it until it goes on or a child is taken from it |
| `ProcessRuns.Runs.Reparent` | kernel/system/process.c:735-737 | giving a process to the kernel is a step of every run: it is noted whom the child was taken from, and nothing else changes |
| `ProcessRuns.ReparentHistory` | kernel/system/process.c:735-737 | everybody else keeps its dead children and goes on waiting for a child of its own |
| `ProcessRuns.KillKeepsHistory` | kernel/system/process.c:462-526 | a kill leaves every waiter still waiting for a live child of its own, or told of a death, and takes no dead child from a survivor |
| `ProcessRuns.ScheduledQuiet` | kernel/system/process.c:610-653 | a schedule takes no dead child from a live parent other than the kernel |
| `ProcessExamples.WokenTooSoon` | kernel/system/process.c:596-601 | a run from the start that ends in the fatal error: a child wakes the parent that waits for it, and lives on |
| `ProcessExamples.AnotherChild` | kernel/system/process.c:586-594 | a run from the start in which a process that waits for pid 4 is given pid 3 |
| `ProcessExamples.ChildGivenAway` | kernel/system/process.c:596-601 | a run from the start that ends in the fatal error though nobody was woken from outside: the child dies, its parent is told, and the child is given to the kernel |
| `SnowState.FreeSlotCount` | kernel/system/snowflake.c:98-105 | the table has exactly as many free slots as it has slots beyond the chain of blocks |
| `SnowState.UnusedExists` | kernel/system/snowflake.c:98-105 | with two slots outside the chain a free slot other than a given one always exists, so the fatal error there is out of reach |
| `SnowState.ChainShorter` | kernel/system/snowflake.c:176-179 | the chain visits fewer slots than the table has, so the "recursive linked list" errors are out of reach |
| `SnowState.GapIsLeast` | kernel/system/snowflake.c:181-182 | last address plus gap is the first aligned address from there on |
| `SnowSteps.AppendThreads` | kernel/system/snowflake.c:211-214 | using the tail slot and ending the list on another free slot keeps the chain threaded and appends exactly the new block |
| `SnowSteps.InsertThreads` | kernel/system/snowflake.c:215-221 | linking a free slot that is not the tail between two blocks keeps the chain threaded and inserts exactly the new block |
| `SnowSteps.RemoveThreads` | kernel/system/snowflake.c:286-290 | unlinking a slot and marking it free keeps the chain threaded and removes exactly its block |
| `SnowSteps.GrowThreads` | kernel/system/snowflake.c:141-147 | copying the table into a larger one changes no block and no link |
| `SnowSteps.HoleFits` | kernel/system/snowflake.c:184-193 | a hole the walk stops at is the lowest address that fits |
| `SnowSteps.NothingFits` | kernel/system/snowflake.c:184-188 | if the walk runs out of memory, no address fits |
| `Snowflake.Allocator.GetUnusedIndex` | kernel/system/snowflake.c:98-105 | a free slot other than the given one, whenever there is one |
| `Snowflake.Allocator.DelOccurence` | kernel/system/snowflake.c:108-122 | the list no longer ends on the given free slot, and holds the same blocks |
| `Snowflake.Allocator.FindHole` | kernel/system/snowflake.c:165-200 | the walk for the first fit: the lowest address for that size and alignment clear of all blocks and inside memory, or none exactly when none exists |
| `Snowflake.Allocator.Place` | kernel/system/snowflake.c:165-234 | adds exactly the new block at the lowest fitting address and counts it, or returns 0 exactly when nothing fits and changes nothing |
| `Snowflake.Allocator.Dynamize` | kernel/system/snowflake.c:125-150 | with four free slots or fewer the table moves to the lowest fitting memory for twenty slots more, its old block replaced by the new one and every other block kept; fatal exactly when there is no such memory |
| `Snowflake.Allocator.AllocFunc` | kernel/system/snowflake.c:152-234 | least fitting address or 0 exactly when none fits, after the table made room; allocations less frees stay the number of blocks |
| `Snowflake.Allocator.MemAlloc` | kernel/system/snowflake.c:237-255 | the same: plain memory belongs to the current process, that of arguments to the process named or else the current one, and is not aligned, all other kinds to the kernel; reserved kinds are refused |
| `Snowflake.Allocator.MemAllocDir` | kernel/system/snowflake.c:258-260 | the same for page memory tagged with its directory |
| `Snowflake.Allocator.MemInit` | kernel/system/snowflake.c:56-82 | the first table lands right above the base block; fatal exactly when memory is too small for it |
| `Snowflake.Allocator.FreeAddr` | kernel/system/snowflake.c:263-297 | frees exactly the block at that address, or returns 1 exactly when no block above the base has it |
| `Snowflake.Allocator.FreeWhere` | kernel/system/snowflake.c:336-343 | unlinking blocks while walking through them visits every block and frees exactly the matching ones |
| `Snowflake.Allocator.FreeAll` | kernel/system/snowflake.c:327-344 | frees exactly the blocks of that process and kind, or of that process and every kind but page memory, and returns their number; the kernel's are refused |
| `Snowflake.Allocator.FreeDir` | kernel/system/snowflake.c:347-358 | frees exactly the blocks tagged with that directory, the base block aside, and returns their number |
| `Snowflake.KeptCount` | kernel/system/snowflake.c:327-358 | what is freed counts one for each matching block above the base |
| `Snowflake.KeptMembers` | kernel/system/snowflake.c:327-358 | the blocks that stay are the base block and exactly the ones that do not match |
| `Snowflake.MembersDecide` | kernel/system/snowflake.c:20-25 | two ordered block lists with the same members are equal |
| `ScubaSteps.SameTable` | kernel/system/scubasuit.c:134-168 | two directory entries on one page table have the same index and the same owner |
| `ScubaSteps.PageWritten` | kernel/system/scubasuit.c:172-180 | writing a page through one directory is seen at that page by exactly those who share the table, and nowhere else |
| `ScubaSteps.TableLinked` | kernel/system/scubasuit.c:154-164 | linking a fresh table changes exactly the pages under it |
| `ScubaSteps.KernelLinked` | kernel/system/scubasuit.c:143-164 | linking the kernel's table shows exactly the kernel's pages there |
| `ScubaSteps.AllocGrew` | kernel/system/scubasuit.c:27-31 | a first-fit allocation adds one block, clear of every frame in use, even when the allocator's table moves meanwhile |
| `ScubaRoom.AllocIsStep` | kernel/system/snowflake.c:152-234 | whether the allocator serves a page-aligned request, and what it has given out afterwards, is a function of the spans given out, the place and size of its table and the memory size |
| `ScubaRoom.RunJoin` | kernel/system/snowflake.c:152-234 | a run of requests is served exactly when its first part is, and the rest in the state that leaves |
| `ScubaRoom.RoomyServes` | kernel/system/snowflake.c:184-188 | a run of requests is served whenever memory above all blocks has room for them and for the table's moves |
| `Scuba.Pager.AllocDir` | kernel/system/scubasuit.c:27-31 | memory for a directory comes exactly when the request can be served, page-aligned and clear of everything in use |
| `ScubaNeeds.BootServes` | kernel/system/scubasuit.c:234-245 | with five megabytes of memory or more, what paging asks for at the start is served |
| `Scuba.Pager.Boot` | kernel/system/scubasuit.c:234-245 | starting the allocator and then paging succeeds with five megabytes or more, memory is mapped to itself, and all that has been given out, the run of the requests for directory and tables, lies below five megabytes, so later requests are known to be served |
| `Scuba.Pager.Init` | kernel/system/scubasuit.c:234-243 | the kernel directory maps every page of memory from the second on to itself, and nothing else; it succeeds exactly when the allocator serves one directory and one table for every 1024 pages |
| `Scuba.Pager.GetPhys` | kernel/system/scubasuit.c:271-292 | the two-level lookup is the flat map: frame address plus offset of a present page, else 0 |
| `Scuba.Pager.MapFunc` | kernel/system/scubasuit.c:134-183 | in each mode: which calls are refused, and otherwise exactly which pages change in which directories, and which entry is made for a missing table, bit for bit; frames with data keep their contents; memory fails it exactly when a table is missing, the kernel's is not used, and no frame can be had |
| `ScubaMap.MapIsLocal` | kernel/system/scubasuit.c:134-183 | a map by a process changes exactly that page of that process |
| `Scuba.Pager.Unmap` | kernel/system/scubasuit.c:207-226 | clears the present bit of exactly that page, for all who share its table; 1 exactly without a table |
| `ScubaMap.UnmapIsLocal` | kernel/system/scubasuit.c:207-226 | an unmap by a process stays invisible to all other directories if and only if its table is not the kernel's |
| `ScubaMap.UnmapSeen` | kernel/system/scubasuit.c:207-226 | an input: a page taken over from the kernel by mode 1 and unmapped is gone for the kernel too |
| `Scuba.Pager.CreateVirtual` | kernel/system/scubasuit.c:185-205 | maps exactly those pages onto fresh cleared frames; returns 0 exactly for no pages, an already mapped page, or a page under a kernel table, and then maps at most the pages before that one; memory fails it exactly when the frames, or one of the missing tables on the way, cannot be had |
| `Scuba.Pager.DirectoryCreate` | kernel/system/scubasuit.c:33-46 | a directory without pages, in memory of its own, exactly when there is such memory |
| `Scuba.Pager.DirCopy` | kernel/system/scubasuit.c:79-117 | the copy maps the same pages with the same flags; kernel tables are shared entry for entry and plain pages frame for frame; every deepcopy page stands on a fresh frame of its own, with equal contents where the original's frame is in use; nothing in use before changes; it succeeds exactly when the allocator serves the directory, and for each table a frame and one more for each deepcopy page |
| `ScubaFork.ForkIsolated` | kernel/system/scubasuit.c:99-108 | at a cloned page whose frame is in use both sides read the same; a write by the copy there is seen by an older directory exactly at its pages on the new frame, by no page whose frame was in use, and at no other cloned page |
| `ScubaFork.OriginalIsolated` | kernel/system/scubasuit.c:99-108 | a write by the original to a cloned page, of a frame that is in use and no page table, is seen at no cloned page of the copy |
| `ScubaFork.ForkApart` | kernel/system/scubasuit.c:99-108 | over any run of writes by both sides to cloned pages: the copy reads at every cloned page what its own writes alone would leave, and every older directory reads at every page of a frame that was in use what the writes of the original alone would leave |
| `ScubaFork.KernelSees` | kernel/system/scubasuit.c:242-244 | the kernel, which maps memory to itself, sees the copy's write at the page of that frame's number |
| `ScubaFork.CopyMapsAlike` | kernel/system/scubasuit.c:142-168 | in every mode a map is refused in the copy exactly where it was in the original |
| `ScubaFork.ForkUndone` | kernel/system/scubasuit.c:79-122 | copying a directory and destroying the copy leaves exactly the blocks and pages there were before |
| `ScubaWalk.TranslateIsMap` | kernel/system/scubasuit.c:271-292 | in every reachable state and for every directory, copies included: the processor, which looks at the present, write and user bits of entry and page, lets every process read and write exactly the pages that are mapped, at the address scuba_get_phys gives, and never takes data for a table |
| `ScubaWalk.MapReached` | kernel/system/scubasuit.c:134-183 | after a map that returns 0 the processor reaches the page on the frame given, in every mode but 1; in mode 1 it reaches what the kernel reaches there |
| `ScubaWalk.CreatedReached` | kernel/system/scubasuit.c:185-205 | the pages scuba_create_virtual makes are reached one after the other from the address returned on, and the next fork clones them |
| `ScubaWalk.ForkReached` | kernel/system/scubasuit.c:79-117 | a copy reaches cloned pages on new frames and every other page at the address the original has |
| `ScubaWalk.MappedThenForked` | kernel/system/scubasuit.c:96-108 | a page mapped in mode 0 is cloned by the next fork, one mapped in mode 3 shares its frame with it |
| `Scuba.Pager.DirDestroy` | kernel/system/scubasuit.c:119-122 | frees exactly the frames of that directory and its own block; all other directories keep their pages |
| `RimTabs.RealignExact` | zapps/f/rim.c:670-737 | reallign_tabs keeps the text, and leaves the line equal to its tab expansion if and only if the length gave it away or it already was |
| `RimTabs.RealignMisses` | zapps/f/rim.c:713-716 | a character typed inside the padding of a tab keeps the length, so the line is left misaligned |
| `RimTabs.InsertRepairable` | zapps/f/rim.c:756-768 | any character, tabs included, typed outside padding into an aligned line is repaired by realigning |
| `RimTabs.DeleteRepairable` | zapps/f/rim.c:808-824 | so is any deletion, a tab that leaves its padding behind included |
| `RimTabs.MovedText` | zapps/f/rim.c:826-863 | so is joining or splitting lines |
| `RimTabs.StripExpand` | zapps/f/rim.c:695-706 | padding a text and stripping it gives the text back |
| `RimTabs.AfterEdit` | zapps/f/rim.c:739-744 | after a repairable edit the line is aligned and the cursor is not on padding |
| `RimView.EditedText` | zapps/f/rim.c:670-737 | realigning a line keeps the text left and right of the place of the edit |
| `RimFile.SaveLoad` | zapps/f/rim.c:226-312 | what the loaded buffer is saved as is the file, for every byte sequence |
| `RimFile.SavesText` | zapps/f/rim.c:281-312 | a saved file holds the lines' text without any padding, joined by line breaks |
| `RimFile.LoadRowsOk` | zapps/f/rim.c:226-279 | text without zero bytes loads into well-formed rows, all aligned |
| `Rim.Editor.LoadFile` | zapps/f/rim.c:226-279 | the buffer holds the padded file and the index its line starts, for every byte sequence, with room for the next edit |
| `Rim.Editor.SaveFile` | zapps/f/rim.c:281-312 | writes the buffer's cells but padding and the last one, whatever they are; for well-formed lines that is their text; every edited cell, the last one included, counts as saved from then on and no other changes its mark |
| `Rim.Editor.Resave` | zapps/f/rim.c:226-312 | a file opened and saved again has the same bytes, for every byte sequence |
| `RimView.FileOfText` | zapps/f/rim.c:281-312 | a saved file is the edited text, its lines joined by line breaks |
| `RimKeys.LoadedLines` | zapps/f/rim.c:226-279 | what is loaded are the lines of the file |
| `RimKeys.LinesJoined` | zapps/f/rim.c:226-279 | the lines of a file joined by line breaks are the file |
| `Rim.Editor.Session` | zapps/f/rim.c:1109-1161 | a file opened at any line, any list of keys (characters, tab, newline, delete, backspace, left, right, home, end) pressed, and saved: the lines of the text that the keys, one after the other, make of the file |
| `RimKeys.MovesKeepText` | zapps/f/rim.c:1003-1009 | left, right, home and end change no line, and leave the cursor one character on, at the start or at the end |
| `RimKeys.KeysUndo` | zapps/f/rim.c:879-907 | backspace undoes a character, a tab or a line break, left and right undo each other, and deleting behind a step left is a backspace |
| `RimKeys.TypedAhead` | zapps/f/rim.c:226-312 | for keys typed at the start of a file that is the keys followed by the file |
| `Rim.Editor.InsertChar` | zapps/f/rim.c:756-768 | inserts one cell into the current line; buffer and line index stay in step |
| `Rim.Editor.ReallignTabs` | zapps/f/rim.c:670-737 | measuring, padding, moving and copying leave exactly the realigned line in place, and the index in step |
| `Rim.Editor.ReallocBuffer` | zapps/f/rim.c:650-668 | afterwards buffer and index have room for the next edit, so every edit may follow a load or an edit |
| `Rim.Editor.TypeKey` | zapps/f/rim.c:1158-1161 | wherever the cursor stands: the character comes into the text at the cursor, and nothing else of the text changes; the cursor stays on its line where the text up to it has all its cells; with all lines aligned they stay so exactly unless the cursor is on padding that no tab follows, and the character goes left of the cursor unless padding puts it behind |
| `Rim.Editor.InsertTab` | zapps/f/rim.c:770-806 | a real tab comes into the text at the cursor, and nothing else of the text changes; with all lines aligned they stay so, the cursor ends off padding, behind the tab or, if it stood on padding, before it |
| `Rim.Editor.ExecuteDelete` | zapps/f/rim.c:808-824 | wherever the cursor stands: the character under it goes, unless at the end of the line or on padding, where only padding goes, and nothing else of the text changes; aligned lines stay aligned |
| `Rim.Editor.InsertNewline` | zapps/f/rim.c:845-863 | wherever the cursor stands: the line is broken there, and nothing else of the text changes; the index gains exactly one start; aligned lines stay aligned if and only if the cursor was off padding |
| `Rim.Editor.ExecuteBackspace` | zapps/f/rim.c:879-907 | wherever the cursor stands: the character before it goes, or the break before its line, and nothing else of the text changes; aligned lines stay aligned and the cursor ends off padding |
| `Rim.Editor.CursorTabAllign` | zapps/f/rim.c:746-754 | moves the cursor off padding, over padding only |
| `Rim.Editor.PageDown` | zapps/f/rim.c:986-992 | moves the cursor down, clips it to the last line and to the line's end, and leaves it on padding if there is any |
| `Rim.Editor.PageUp` | zapps/f/rim.c:994-1001 | the same upwards |
| `Rim.Editor.PagedOntoPadding` | zapps/f/rim.c:986-992 | a run of keys after which a line is misaligned: the end of a line, page down onto padding, and a character |
| `RimPadding.TypedOnPadding` | zapps/f/rim.c:713-716 | a character that is no tab, typed on the padding of an aligned line, leaves it aligned if and only if a tab follows on that line; then it stands behind the padding, and otherwise inside it with nothing realigned |
| `RimPadding.TabOnPadding` | zapps/f/rim.c:713-716 | a tab typed there leaves the line aligned and stands behind the padding |
| `RimPadding.DeletedPadding` | zapps/f/rim.c:808-824 | deleting there changes nothing of the text, and the padding comes back |
| `RimPadding.BrokenOnPadding` | zapps/f/rim.c:1058-1059 | a line broken there has a misaligned first half and an aligned second one |
| `RimPadding.SamePlaces` | zapps/f/rim.c:695-706 | two aligned lines of the same text have their padding in the same places |
| `RimPadding.TypedStays` | zapps/f/rim.c:670-737 | where the text up to the cursor asks for at least as many cells as stand there, the cursor stays on its line however many cells realigning takes away |
| `RimPadding.AlignedFull` | zapps/f/rim.c:695-706 | an aligned line meets that at every place, padding included |
| `RimPadding.CursorLeaves` | zapps/f/rim.c:708-737 | an input: a line of two tabs, broken on padding and typed into, becomes one where the next character puts the cursor behind the line's end |
| `Addons.GetAddons` | tools/addons.py:40-46 | the first addon of that name; none if and only if no entry of the table has it |
| `Addons.Visitor.DependenciesRec` | tools/addons.py:77-90 | ends on cyclic graphs too; lists names not visited before, each once, all within reach, and everything they need is visited; every dependency stands before, was visited before, or lies on a cycle |
| `Addons.Dependencies` | tools/addons.py:77-90 | exactly the addons reachable from the root, each once; a dependency stands before its dependent unless it needs that one in turn; without cycles every dependency before its dependents; fails exactly when a reachable addon needs a name that no entry of the table has |
| `Addons.SortedJoin` | tools/addons.py:85-90 | appending the walk of one more dependency keeps the order |
| `Grep.Strstr` | zapps/c/grep.c:37-54 | the first place where the pattern occurs, with or without case; none exactly when it does not occur |
| `Grep.LowerSame` | zapps/c/grep.c:37-45 | ignoring case, two characters are alike exactly if they are equal or the capital and the small form of one letter |
| `Grep.FileCtx` | zapps/c/grep.c:90-131 | prints, in order, exactly the lines within c of a matching line, each once with its own number and text, and a mark exactly before a line that opens a group c lines ahead of the next match |
| `Grep.ShowAfter` | zapps/c/grep.c:110-114 | the lines after a match are shown until c in a row do not match |
| `Grep.ShowsNearLines` | zapps/c/grep.c:90-131 | the printed numbers are ascending and are exactly the lines within c of a match |
| `Grep.ShowsTexts` | zapps/c/grep.c:99-116 | every line printed has its own text, a mark stands before each line that is to have one, and before no other |

## Left out

- CtrSize.SetSize: an id of the mounted disk whose sector lies beyond its end is excluded, as the program reads its flag out of bounds (`kernel/filesys/vdisk.c:74-76`); ids of other disks are refused.
- CtrSize.GetSize: the same ids are excluded.
- CtrDelete.Delete: the same ids are excluded.
- CtrRw.Rw: the same ids are excluded, and sums of offset and size that wrap at 32 bits.
- Filesystem.Filesys.GetSize: the same ids are excluded.
- Filesystem.Filesys.Delete: the same ids are excluded.
- Filesystem.Filesys.Write: the same ids are excluded, and sums of offset and size that wrap at 32 bits.
- Paths.RecPathToSid: the same ids are excluded; directories are well formed.
- Filesystem.Filesys.SetSize: excludes the same ids, and asks that the disk has room, since sector numbers are cut to 24 bits without a check; running out of them is not modelled.
- Filesystem.Filesys.Init: asks for the same room.
- Filesystem.Filesys.Read: the same ids are excluded; offsets and sizes are unbounded numbers, so a sum past 32 bits that wraps around the bounds check is not modelled.
- VirtualDisk.Vdisk.Extend: growth is an extension of sequences and not a `realloc` of arrays.
- Several mounted disks: one disk with an id from 1 to 255 is mounted, every other id is an unmounted one.
- DirectoryOps.GetDirContent: what is called a directory must hold a well-formed one.
- DirectoryOps.AddElement: the directory must be well formed, and the disk have room for it.
- Paths.PathToSid: directories are well formed; the equivalence with the walk is for nonempty names without slashes, as names with slashes cannot be reached.
- `kfu_dir_create`, `fs_cnt_meta` for writing, mounting, initrd and boot: they call the operations above in a row.
- ProcessManager.Manager.Kill: the caller is the target itself or outside its subtree; a kill by a proper descendant switches away in the middle of the recursion.
- ProcessManager.Manager.Sleep: a date that wraps around to exactly 0 is excluded, since the list of sleepers is wrong from then on.
- ProcessManager.Manager.Reparent: to pid 0 only, as its callers do.
- A process's name, registers, memory, run time and the module trigger: they take no part in the invariants.
- ProcessRuns.Runs.WaitResume: a process woken inside `process_wait` goes on there before it makes another call.
- ProcessManager.Manager.Create: `process_fork` copies registers and is not modelled; ids never wrap.
- The process table, the queue and the list of sleepers are sequences that the methods update, not C arrays.
- Snowflake.Allocator.MemAlloc: the table state is only used by initialisation and the table's own move, which are modelled on their own; callers from elsewhere bypass the low-water check.
- Snowflake.Allocator.AllocFunc: sums of addresses and sizes stay below 2^32.
- `mem_alloc_fetch`, `mem_get_info`, the probing of the memory size and the diskiso block taken at start: single loops or constants.
- Scuba.Pager.MapFunc: mode 2, the mapping of kernel pages, is used on the kernel directory only, as its callers do.
- Scuba.Pager.DirCopy: when memory runs out the program writes through a null address; the model says exactly when, and nothing about what is left behind. The same holds for DirectoryCreate, MapFunc, CreateVirtual and Init.
- Scuba.Pager.DirDestroy: the kernel directory is not destroyed.
- `scuba_dir_inited` (`kernel/system/scubasuit.c:54-77`), the directory of a created process: it links the kernel's entries, maps the heap by CreateVirtual and copies its start; not modelled.
- Page directories are kept beside the frames and not inside them; a frame holds a table or data. Control registers, the fault handler, the dump and the mapping of video memory are left out.
- Rim.Editor.InsertChar: characters from 128 on, which a signed `char` turns negative, are not typed.
- Rim.Editor.InsertTab: real tabs only, not the variant that inserts spaces; on a misaligned line it asks for the text up to the cursor to have all its cells, as the program else looks for the cursor's place behind the line.
- Rim.Editor.InsertNewline: without automatic indentation.
- Rim.Editor.Session: without the keys that change the line, up, down and the page keys, since where they put the cursor depends on padding.
- Cut, copy, paste, colouring, display, title and key handling of the editor: cutting shifts by a length that leaves out padding, the rest is output.
- Addons.Dependencies: the root is the table's own entry of its name, as it is where the program calls it; downloading is left out.
- Grep.FileCtx: a file is a sequence of lines and c is at least 1; colours, file names, the modes without context and the search through directories are left out.
- Drivers, interrupts, graphics, program loading, the C library and all other programs.
