# AuriSYS, verified

AuriSYS is a small i386 kernel with a userland. This project models the parts of it that keep state others
depend on, and proves what they promise over every run:

- **Copy-on-write address spaces** (`Paging.dfy`, `PageAccounts.dfy`, `Pager.dfy`). Fork shares page tables through counted
  groups; a write fault takes the tables and the page apart again. Every run refines a machine in which fork copies
  everything, and nothing allocated is lost on the way.
- **Kernel heap** (`HeapList.dfy`, `HeapExact.dfy`, `HeapMemory.dfy`, `HeapClient.dfy`). The block list as a value, what
  every call does to it by addresses, the same list in flat bytes (packed headers, links both ways, edited in place),
  and a program on it.
- **ext4 subset** (`Bitmap.dfy`, `Files.dfy`, `Volume.dfy`, `VolumeAccounts.dfy`, `Directory.dfy`, `DirectoryCode.dfy`,
  `Namespace.dfy`, `Paths.dfy`). The circular bitmap scan, inline extents, file contents, who has which block,
  directory records byte by byte, directories on the volume, path folding.
- **Pipes and descriptors** (`Pipes.dfy`, `PipeRuns.dfy`, `PipeCode.dfy`). Rings, reader and writer counts, single-slot waiting, as
  a state machine over tasks, tables and pipes, with the code's loops proved against it.
- **Exit notes, signals, scheduling** (`Notes.dfy`, `NoteFate.dfy`, `NoteCode.dfy`, `Signals.dfy`,
  `Scheduler.dfy`). How the end of a process reaches whoever waits for it, and is not lost on the way; frames on the
  user stack and the way back; how long a ready process can be passed over.
- **Arguments** (`ExecArgs.dfy`) from execve to crt0, and **shell patterns** (`Glob.dfy`).

`Basics.dfy` and `Words.dfy` hold what several modules share. The kernel is not preempted in its own code
(src/kernel/task.cpp:433), so a call is atomic between the points where it parks. Algorithms that change things in
place are methods of classes with the source's fields; each is proved equal to a function on values, and the
properties are lemmas about those functions and about all runs of them.

Some things one would expect turn out not to hold. Each has an example and the exact condition under which it does:

| expected | example | holds exactly when |
|---|---|---|
| alloc_blocks stays in the volume | `Bitmap.LeavesVolumeExample` | `Bitmap.LeavesVolumeIff`: free blocks at the two ends of the volume do not add up before anything else fits |
| rm removes the one entry | `Directories.GrownThenRemoved` | `Directories.RemoveIff`: the entry is not first in its block |
| a parked reader or writer is always found again | `Pipes.SecondReaderExample` | `Pipes.ReadLosesIff`, `Pipes.WriteLosesIff`: the call does not park, or no other live task, parked or woken, is inside the same call on the pipe |
| fd_install, exported and without a caller yet, keeps the counts right | `Pipes.SelfInstallExample` | `Pipes.SelfInstallIff`: it is not the pipe's last descriptor, installed onto itself |
| pipe() that fails leaves nothing behind | `Pipes.LeakExample`, `Pipes.LeakIsForever` | `Pipes.LeaksIff`: there is no free buffer, or there are two free descriptors |
| every page a process sees can be written, given memory | `Paging.StrandedExample` | `Paging.StorableAfter`: no fork that left its old group and got no new one has stranded the page, or else the space has come into a group or gone, or the page was mapped anew, since then |
| a fork that fails for memory forgets no exit note | `Notes.FailedForkExample` | `Notes.FailedForkForgetsIff`: no list notes the pid of the slot it tried, and the slot's own list is empty |
| an exit note stays with the parent until it is collected | `Notes.FailedForkExample` | `NoteFate.NoNoteLost`: no fork finds the slot of its pid, or of the parent, before that |
| a fork that fails for memory leaves spaces, groups and tables as they were | `Paging.FailedSpacesExample` | `Paging.FailedForkIff`: it got no space at all, or a whole one and no group for a parent in none |
| chdir keeps the path it resolved | `Paths.CutExample` | `Paths.Kept`: the path has at most 127 characters; what is kept of a longer one is canonical by `Paths.KeptCanonicalIff` |

## Model

| member | source | states |
|---|---|---|
| Paging.PageNo | src/kernel/arch/paging.cpp:67-73 | every user address falls on exactly one of the 1024 pages, the code slot's before the heap slot's |
| Paging.ReleaseValid | src/kernel/arch/paging.cpp:120-127 | a group that loses a member has a count equal to its members again, and goes with its tables when there is none |
| Paging.LeaveValid | src/kernel/arch/paging.cpp:147-156 | a parent with tables of its own leaves its old group, and counts, owners and frames stay right |
| Paging.FoundValid | src/kernel/arch/paging.cpp:158-173 | a group founded on a space's tables has no writable entry and one member |
| Paging.JoinValid | src/kernel/arch/paging.cpp:174-184 | a child without a group joins one: counts, owners and frames stay right |
| Paging.UnshareValid | src/kernel/arch/paging.cpp:186-206 | a member with private copies of its tables owns them alone; the group's tables are untouched |
| Paging.MapValid | src/kernel/arch/paging.cpp:250-261 | mapping a frame nobody maps into a space's own table keeps every frame exclusive |
| Paging.CopiedValid | src/kernel/arch/paging.cpp:208-237 | a resolved fault changes no space's view of any page, and the page can now be written |
| Paging.FaultKeeps | src/kernel/arch/paging.cpp:208-237 | the fault handler, whatever memory it gets, keeps the invariant and every view; answering true means writable |
| Paging.StoreValid | src/kernel/arch/paging.cpp:143-237 | a byte stored through a writable entry shows at one page of one space and nowhere else |
| Paging.ExclusiveWriter | src/kernel/arch/paging.cpp:143-237 | a frame one space may write is mapped by no other space and by no other page |
| Paging.WriteRefines | src/kernel/arch/isr.cpp:69-112 | a user store, faulting or not, is the eager machine's store: the writer's page changes, nothing else |
| Paging.WriteOutcome | src/kernel/arch/isr.cpp:69-112 | when a user store succeeds, exactly: writable, or copyable with enough memory |
| Paging.DestroyValid | src/kernel/arch/paging.cpp:110-139 | destroying a space frees its own tables once, never a table somebody still uses |
| Paging.DestroyViews | src/kernel/arch/paging.cpp:110-139 | every other space sees what it saw |
| Paging.CreateValid | src/kernel/arch/paging.cpp:83-108 | a new space is empty and owns fresh tables; a failed creation adds none |
| Paging.ShareRefines | src/kernel/arch/paging.cpp:143-185 | after a fork the child sees the parent's pages and the parent what it saw; a failed one changes no view |
| Paging.FreedGroupServes | src/kernel/arch/paging.cpp:147-173 | a fork may get a frame of the group its parent has just left, tables or group, for its new group, exactly when the parent was that group's last member |
| Paging.StepRefines | src/kernel/arch/paging.cpp:83-261 | every operation keeps the invariant and is the eager machine's operation on the views |
| Paging.RunRefinesEager | src/kernel/arch/paging.cpp:83-261 | over every run, copy-on-write shows exactly what copying everything at fork would |
| Paging.InitValid | src/kernel/arch/paging.cpp:83-108 | the empty machine satisfies the invariant |
| Paging.WriteResolves | src/kernel/arch/paging.cpp:208-237 | while no fork has starved, a store works on every user page a process sees, given the memory to copy it |
| Paging.StepResolvable | src/kernel/arch/paging.cpp:143-185 | resolving faults stays possible exactly unless the step is a fork that starved of its group |
| Paging.RunResolvable | src/kernel/arch/paging.cpp:143-237 | ... over every run in which no fork starves |
| Paging.StarvedShare | src/kernel/arch/paging.cpp:147-161 | what a fork without memory for its group leaves behind |
| Paging.StrandedPage | src/kernel/arch/paging.cpp:147-161 | after a fork that starved of its group, the next store into a read-only page of the parent fails, whatever memory there is |
| Paging.StorableIff | src/kernel/arch/paging.cpp:208-237 | in any state, a user page a process sees takes every store, given memory, exactly when it is not a read-only page of a space in no group |
| Paging.SpaceStorableIff | src/kernel/arch/paging.cpp:208-237 | all user pages of a space take stores, given memory, exactly when it is in a group or none of them is read-only |
| Paging.StepStuck | src/kernel/arch/paging.cpp:143-261 | a stuck page stays stuck exactly unless its space goes or comes into a group, or the page is mapped anew; nothing but a starved fork makes one |
| Paging.RunStuck | src/kernel/arch/paging.cpp:143-261 | over every run: a page is stuck at the end exactly when it was, or a fork stranded it, and nothing has freed it since |
| Paging.StorableAfter | src/kernel/arch/paging.cpp:143-261 | over every run from the empty machine, a user page seen takes stores, given memory, exactly when no fork has stranded it since it was last freed |
| Paging.StrandedExample | src/kernel/arch/paging.cpp:147-161 | eight steps from the empty machine to such a page |
| Paging.ForkSpacesShow | src/kernel/task.cpp:746-757 | whatever memory a fork gets, every process sees what it saw, and its child what the parent sees; it succeeds exactly with a space, a group if one is needed, and a stack |
| Paging.FailedForkIff | src/kernel/task.cpp:746-757 | a fork that fails leaves spaces, groups, tables and allocations as they were exactly when it got no space, or a whole one and no group for a parent in none |
| Paging.ForkSpacesStuck | src/kernel/task.cpp:746-757 | what a fork, failed or not, does to the pages of everybody: exactly which become or stop being unwritable |
| Paging.FailedSpacesExample | src/kernel/task.cpp:754-757 | three steps from the empty machine to a fork that fails for its stack and leaves a space behind |
| Paging.ShareResolvable | src/kernel/arch/paging.cpp:143-185 | a fork that got its group leaves every fault resolvable |
| PageAccounts.JoinAccounts | src/kernel/arch/paging.cpp:174-184 | the child's own tables are given back: every table left has an owner, and all that is allocated is in use |
| PageAccounts.LeaveAccounts | src/kernel/arch/paging.cpp:147-156 | the same when a parent leaves its old group, with whose last member go its tables |
| PageAccounts.DestroyAccounts | src/kernel/arch/paging.cpp:110-139 | the same when a space goes, a member with tables of its own among them |
| PageAccounts.FaultAccounts | src/kernel/arch/paging.cpp:208-237 | a fault takes one frame, and two tables if they were shared; one that fails takes nothing |
| PageAccounts.StepAccounts | src/kernel/arch/paging.cpp:83-261 | after every operation each table is a space's or a group's, and what is allocated is exactly spaces, groups, tables, frames, and what creations that failed half way have lost; which frames there are is exact |
| PageAccounts.RunAccounts | src/kernel/arch/paging.cpp:83-261 | ... over every run |
| PageAccounts.NothingLeft | src/kernel/arch/paging.cpp:83-261 | when the last space has gone, all groups and tables have, and only frames and what was lost are left |
| PageAccounts.ForkAccounts | src/kernel/task.cpp:746-757 | the same for the spaces of a whole fork, failed or not |
| Pager.Mmu.constructor | src/kernel/arch/paging.cpp:83-108 | no spaces, no groups, no tables |
| Pager.Mmu.KFree | src/kernel/lib/heap.cpp:166-193 | only what is allocated is given back: no double free in any caller |
| Pager.Mmu.LinkTables | src/kernel/arch/paging.cpp:75-81 | the directory points at the space's two tables, nothing else changes |
| Pager.Mmu.DropReference | src/kernel/arch/paging.cpp:121-125 | one member fewer, and the last one out frees the tables and the group |
| Pager.Mmu.SpaceCreate | src/kernel/arch/paging.cpp:83-108 | the step Create, out-of-memory paths included |
| Pager.Mmu.ForkAddressSpace | src/kernel/task.cpp:746-757 | the spaces of a fork: made, shared, and given back if sharing fails, but not if the stack does |
| Pager.Mmu.SpaceDestroy | src/kernel/arch/paging.cpp:110-139 | the step Destroy |
| Pager.Mmu.FreeOwnTables | src/kernel/arch/paging.cpp:110-139 | both tables of a space that shares none are given back |
| Pager.Mmu.LeaveStaleGroup | src/kernel/arch/paging.cpp:147-156 | the step Leave, when the parent no longer uses the group's tables |
| Pager.Mmu.ProtectTables | src/kernel/arch/paging.cpp:168-173 | the loop clears the writable bit of all present entries of both tables and no other bit |
| Pager.Mmu.SpaceShareUser | src/kernel/arch/paging.cpp:143-185 | the step Share |
| Pager.Mmu.JoinGroup | src/kernel/arch/paging.cpp:174-184 | the step Join |
| Pager.Mmu.UnshareTables | src/kernel/arch/paging.cpp:186-206 | the step Unshare, or nothing when a table is missing |
| Pager.Mmu.SpaceCowFault | src/kernel/arch/paging.cpp:208-237 | the step Fault |
| Pager.Mmu.MapUserPage | src/kernel/arch/paging.cpp:250-261 | the step MapPage; false outside the user half |
| Pager.Mmu.UserStore | src/kernel/arch/isr.cpp:69-112 | the step Write: walk, fault once, retry |
| Pager.DestroyOrder | src/kernel/arch/paging.cpp:110-139 | leaving the group before or after freeing one's own tables comes to the same |
| Pager.ProtectedAlready | src/kernel/arch/paging.cpp:168-173 | protecting a group's tables again changes nothing |
| HeapList.Ordered | src/kernel/lib/heap.cpp:54-70 | in a tiled heap earlier blocks end before later ones start |
| HeapList.FindFit | src/kernel/lib/heap.cpp:72-77 | the result is the first free block that is large enough, and past the end exactly when there is none |
| HeapList.FindFrame | src/kernel/lib/heap.cpp:199-226 | likewise for the first block that can be cut at a page boundary |
| HeapList.TakeKeeps | src/kernel/lib/heap.cpp:54-70 | splitting and marking keeps tiling, sizes and coalescing |
| HeapList.FreeKeeps | src/kernel/lib/heap.cpp:166-193 | freeing with merges on both sides keeps tiling and leaves no two free neighbours |
| HeapList.FrameKeeps | src/kernel/lib/heap.cpp:195-234 | cutting a block in up to three keeps the heap's shape |
| HeapList.FreeUndoesTake | src/kernel/lib/heap.cpp:106-120 | freeing a fresh kmalloc block restores the exact block list |
| HeapList.FreeUndoesFrame | src/kernel/lib/heap.cpp:195-234 | freeing a fresh run of frames restores the exact block list |
| HeapList.TakeUses | src/kernel/lib/heap.cpp:106-120 | the blocks in use are the old ones and the one handed out |
| HeapList.MallocGives | src/kernel/lib/heap.cpp:106-120 | aligned memory of the size asked for, out of one free block, no live block touched |
| HeapList.MallocFails | src/kernel/lib/heap.cpp:72-120 | null exactly when no free run of bytes holds a header and the size, or the size is over the cap |
| HeapList.FrameGives | src/kernel/lib/heap.cpp:195-234 | page aligned, with all pages inside the one block handed out |
| HeapList.FrameFails | src/kernel/lib/heap.cpp:195-233 | null exactly when in no free block the pages fit from its first page boundary on, with nothing or a whole block left in front |
| HeapList.FitsIff | src/kernel/lib/heap.cpp:199-226 | what the loop tests of a block, by addresses: the least page boundary behind the header, the pages up to the end, the rest in front |
| HeapList.FreeUses | src/kernel/lib/heap.cpp:166-193 | exactly the one block goes out of use |
| HeapList.NoneUsed | src/kernel/lib/heap.cpp:166-193 | a heap with nothing in use is one free block |
| HeapList.FreeAllInAnyOrder | src/kernel/lib/heap.cpp:166-193 | freeing all live blocks in any order leaves one free block |
| HeapList.ReallocGives | src/kernel/lib/heap.cpp:132-164 | what krealloc returns holds the new size; the old block survives exactly when it returns null |
| HeapList.StepKeeps | src/kernel/lib/heap.cpp:106-234 | every call keeps the heap's shape and the balance of allocations and frees |
| HeapList.RunKeeps | src/kernel/lib/heap.cpp:106-234 | ... over every sequence of calls |
| HeapExact.Determined | src/kernel/lib/heap.cpp:54-70 | the blocks in use determine the whole block list of a heap |
| HeapExact.MallocExact | src/kernel/lib/heap.cpp:72-120 | kmalloc takes the first free block, by address, that holds the size, cut at the next boundary unless the rest were too small; nothing else comes into use |
| HeapExact.FrameExact | src/kernel/lib/heap.cpp:195-234 | kframe_alloc_n answers the first page boundary of the first block in which the pages fit, cut off likewise |
| HeapExact.FreeExact | src/kernel/lib/heap.cpp:166-193 | kfree takes the one block out of use |
| HeapExact.ReallocExact | src/kernel/lib/heap.cpp:132-164 | in place exactly when the block is the last and the heap reaches far enough; else as kmalloc, and the old block goes |
| Words.Word | src/kernel/fs.cpp:43-45 | a little-endian load is a number below 2^32 |
| Words.Put | src/kernel/fs.cpp:50-55 | a 32-bit store reads back and disturbs no other byte and no other word |
| HeapMemory.Unpack | src/kernel/lib/heap.cpp:47-51 | magic, size and the in-use bit come back out of the packed word |
| HeapMemory.Remarked | src/kernel/lib/heap.cpp:51-51 | repacking one header keeps all links |
| HeapMemory.SplitLinks | src/kernel/lib/heap.cpp:54-70 | the stores of split leave a list linked both ways |
| HeapMemory.AbsorbLinks | src/kernel/lib/heap.cpp:177-192 | so do the stores of a merge |
| HeapMemory.EditKeeps | src/kernel/lib/heap.cpp:54-70 | header stores leave every live payload's bytes alone |
| HeapMemory.Arena.constructor | src/kernel/lib/heap.cpp:81-104 | one free block over the range |
| HeapMemory.Arena.Mark | src/kernel/lib/heap.cpp:51-51 | one block's flag changes, list and payloads stay |
| HeapMemory.Arena.Split | src/kernel/lib/heap.cpp:54-70 | the block list is cut in two at the place asked for, or left whole when the rest is too small |
| HeapMemory.Arena.FindFitIn | src/kernel/lib/heap.cpp:72-77 | following next pointers finds the first fit |
| HeapMemory.Arena.Kmalloc | src/kernel/lib/heap.cpp:106-120 | list and result of Malloc; live payloads unchanged; counters |
| HeapMemory.Arena.Take | src/kernel/lib/heap.cpp:106-120 | split, then mark |
| HeapMemory.Arena.Absorb | src/kernel/lib/heap.cpp:177-192 | one block takes over the next |
| HeapMemory.Arena.Kfree | src/kernel/lib/heap.cpp:166-193 | list of Free; a pointer whose header is not a live one's is counted and ignored; live payloads unchanged |
| HeapMemory.Arena.Release | src/kernel/lib/heap.cpp:166-193 | mark free and merge on both sides |
| HeapMemory.Arena.KframeAllocN | src/kernel/lib/heap.cpp:195-234 | list and result of FrameAlloc; live payloads unchanged |
| HeapMemory.Arena.Carve | src/kernel/lib/heap.cpp:210-228 | the cut before the boundary, the split behind the run |
| HeapMemory.Arena.Copy | src/kernel/lib/heap.cpp:159-161 | the bytes arrive, no other byte changes |
| HeapMemory.Arena.Krealloc | src/kernel/lib/heap.cpp:132-164 | list and result of Realloc; the old contents are at the new place; every other live payload unchanged; counters |
| HeapMemory.Arena.Resize | src/kernel/lib/heap.cpp:141-163 | in place when the last block reaches far enough, elsewhere otherwise |
| HeapMemory.Arena.GrowInPlace | src/kernel/lib/heap.cpp:146-155 | nothing moves |
| HeapMemory.Arena.Relocate | src/kernel/lib/heap.cpp:156-163 | new block, copy, free |
| HeapClient.Program.Perform | src/kernel/lib/heap.cpp:106-234 | one call of a program changes one of its variables as it would on plain byte sequences |
| HeapClient.Program.PerformAll | src/kernel/lib/heap.cpp:72-234 | over every sequence of calls, on the bytes: what a program stored in a block is in it until released, wherever krealloc moves it; blocks and pointers are those of the heap's functions, and a call gets memory exactly when a free piece, or room behind the last block, is there for it |
| HeapClient.ResizeIff | src/kernel/lib/heap.cpp:132-164 | krealloc succeeds exactly when the last block can grow in place or a free piece is large enough |
| Bitmap.Scan | src/kernel/fs.cpp:159-175 | finds the first free run in scan order, and fails only when there is none |
| Bitmap.RunIsRange | src/kernel/fs.cpp:163-175 | with block 0 taken, a run in scan order lies in the volume and is free |
| Bitmap.LeavesVolumeIff | src/kernel/fs.cpp:163-175 | exactly when a run found reaches past the end of the volume |
| Bitmap.LeavesVolumeExample | src/kernel/fs.cpp:163-175 | a four-block volume where it does |
| Bitmap.HasRunIff | src/kernel/fs.cpp:159-186 | with bit 0 set: a request is met exactly when that many free blocks lie in a row and not across the hint |
| Bitmap.NextExact | src/kernel/fs.cpp:159-186 | it takes the first such run from the hint on, else the first one of the volume, and the hint moves behind it |
| Files.DenseMap | src/kernel/fs.cpp:86-104 | the extent walk finds the block of every logical block of a file, and none beyond |
| Files.AppendExtent | src/kernel/fs.cpp:624-630 | an extent appended behind the others adds its blocks at the end |
| Files.BlocksLeast | src/kernel/fs.cpp:598-598 | a size takes the least number of blocks it fits in |
| Files.PatchByte | src/kernel/fs.cpp:826-831 | rewriting part of one block changes exactly those bytes of the file |
| Files.OtherBytes | src/kernel/fs.cpp:826-831 | and no byte of a file that does not have the block |
| Files.ChunkSplices | src/kernel/fs.cpp:799-833 | one more chunk of a write extends the splice |
| Volumes.AllocClaims | src/kernel/fs.cpp:159-186 | a free run belongs to no file and to no metadata |
| Volumes.StoreKeeps | src/kernel/fs.cpp:63-67 | a store into a block one claims is invisible to every other file |
| Volumes.CommitKeeps | src/kernel/fs.cpp:309-315 | storing the inode keeps blocks unshared, marked and out of the metadata |
| Volumes.FreeKeeps | src/kernel/fs.cpp:585-595 | blocks in no file can be unmarked |
| Volumes.FreshVolume | src/kernel/fs.cpp:319-380 | a volume with nothing but its metadata marked satisfies what every call keeps |
| Volumes.Aborted | src/kernel/fs.cpp:798-833 | a write given up half way shows what reached the disk, up to the old end of the file |
| Volumes.Volume.AllocBlocks | src/kernel/fs.cpp:159-186 | with bit 0 set: succeeds exactly when a free run fits, and then yields an in-volume run that was free, now marked |
| Volumes.Volume.FreeBlocks | src/kernel/fs.cpp:585-595 | exactly those bits are cleared; refused for zero blocks or past the end |
| Volumes.Volume.ReadAt | src/kernel/fs.cpp:516-539 | exactly the requested slice, as far as the file goes |
| Volumes.Volume.WriteAt | src/kernel/fs.cpp:773-843 | success splices the data in, failure leaves a torn splice; all other files unchanged; it succeeds exactly within the last block, or with an extent and a run left; exactly the new blocks are marked; terminates |
| Volumes.Volume.GrowExtents | src/kernel/fs.cpp:806-829 | one extent more, and the write can go on to its end; it fails exactly when the extents, the length limit or the free runs do not allow it |
| Volumes.Volume.WriteBlocks | src/kernel/fs.cpp:597-633 | the data is on fresh blocks behind the old ones; success or not, no file's bytes change; it succeeds exactly when extents and runs suffice; the bitmap afterwards is exact either way |
| Volumes.Volume.CreateFile | src/kernel/fs.cpp:655-763 | a new file holds exactly the data, and exactly its blocks are marked; it fails only for want of runs |
| Volumes.Volume.TruncateFile | src/kernel/fs.cpp:655-770 | the file holds exactly the data; its new blocks are marked, all old ones cleared, and no other bit changes; failure leaves it as it was |
| Volumes.Volume.AppendFile | src/kernel/fs.cpp:721-757 | old contents followed by the data, on blocks behind the old ones, exactly those marked; failure leaves the contents as they were |
| Volumes.Volume.WriteFile | src/kernel/fs.cpp:655-770 | create, replace or append by flags; fails exactly for both flags, for an existing file without a flag, for directories, and for want of room; which bits it sets and clears is exact |
| Volumes.Volume.ReleaseExtents | src/kernel/fs.cpp:1006-1010 | an extent list no file has any more, but for one on its way out, is given back: exactly its bits are cleared; no file's bytes change |
| Volumes.Volume.RemoveFile | src/kernel/fs.cpp:1001-1029 | the inode goes, exactly the bits of its blocks are cleared, every other file is unchanged |
| Volumes.Volume.GrowDirectory | src/kernel/fs.cpp:245-281 | one block more at the end of a directory, or the first of a new one, exactly that one marked; fails exactly for a file, a fifth extent, or a full volume |
| Volumes.Volume.EditDirectory | src/kernel/fs.cpp:231-241 | one block of a directory rewritten, every other file unchanged |
| Volumes.Volume.Perform | src/kernel/fs.cpp:597-1033 | one call shows what it shows on plain byte sequences, and succeeds exactly when flags, kind and room allow; which bits it sets and clears is exact |
| Volumes.Volume.PerformAll | src/kernel/fs.cpp:597-1033 | over every sequence of calls no block is in two files, every file block is marked, none is metadata, every file reads as replayed on byte sequences, every call succeeds exactly when its volume allows, and a success leaves marked only what it has put into files |
| VolumeAccounts.CallAccounts | src/kernel/fs.cpp:597-1033 | a call that succeeds loses no block; one that fails loses at most what the allocator had handed it |
| VolumeAccounts.RunAccounts | src/kernel/fs.cpp:597-1033 | over every run a marked block is metadata, a block of some file, or lost by a call that failed |
| VolumeAccounts.FreedAgain | src/kernel/fs.cpp:159-186 | the hint never comes to lie inside an extent, so a run of blocks in no file any more can be allocated again |
| VolumeAccounts.RemovedAgain | src/kernel/fs.cpp:1001-1029 | after a removal, each extent the file had can be |
| VolumeAccounts.FreshAccounts | src/kernel/fs.cpp:319-380 | a volume with only its metadata marked has lost nothing |
| Directories.TiledIsSane | src/kernel/fs.cpp:541-570 | a block tiled by its records is one every walk gets through |
| Directories.UsedLeast | src/kernel/fs.cpp:203-203 | a record takes its header and name, rounded up to four |
| Directories.AddKeeps | src/kernel/fs.cpp:205-243 | an entry added into slack: the records tile the block, the old entries are listed in order, the new one last |
| Directories.RemoveExact | src/kernel/fs.cpp:981-995 | removing a record with another in front of it removes exactly that entry and keeps the tiling |
| Directories.RemoveIff | src/kernel/fs.cpp:981-995 | rm takes out the one entry exactly when it is not the first record of its block |
| Directories.FirstStays | src/kernel/fs.cpp:981-992 | the first record instead swallows its neighbour, or breaks the chain |
| Directories.GrownLists | src/kernel/fs.cpp:245-273 | a block a directory grew by lists its one entry |
| Directories.GrownThenRemoved | src/kernel/fs.cpp:981-992 | removing that entry again leaves a block no walk gets over |
| DirectoryCode.Scratch.FindTail | src/kernel/fs.cpp:222-230 | the last record and what it uses, or that the chain is broken, exactly |
| DirectoryCode.Scratch.WriteRecord | src/kernel/fs.cpp:234-241 | the stores that close the last record and open the new one |
| DirectoryCode.Scratch.ListBlock | src/kernel/fs.cpp:553-567 | one block's live records in order, up to the one at which the callback stops it |
| DirectoryCode.Scratch.FindIno | src/kernel/fs.cpp:981-995 | the first record naming the inode, with the one before it; found exactly when the walk comes to one |
| DirectoryCode.EntryAdded | src/kernel/fs.cpp:231-241 | over all blocks of a directory: the old entries in order and exactly the new one |
| DirectoryCode.RemovesOne | src/kernel/fs.cpp:981-995 | over all blocks of a directory: exactly the one entry is gone |
| Namespace.Fs.Fetch | src/kernel/fs.cpp:216-221 | the scratch block holds the directory's block, found through the extents |
| Namespace.Fs.AddEntry | src/kernel/fs.cpp:205-281 | on the volume: list_dir yields the old entries in order and exactly the new one, every other file is unchanged; it succeeds exactly when a block has room before any is broken, or all are whole and full and a block more can be had; a refusal changes nothing one can read |
| Namespace.Fs.ListDir | src/kernel/fs.cpp:541-570 | the live records of all blocks in order, up to the one at which the callback stops it |
| Namespace.Fs.RemoveEntry | src/kernel/fs.cpp:970-999 | the first record naming the inode goes, with another in front of it nothing else does; it succeeds exactly when a block names the inode before any is broken; every other file is unchanged |
| Namespace.Fs.Mkdir | src/kernel/fs.cpp:876-925 | the new directory lists itself and its parent, the parent lists one entry more, nothing else has changed; it succeeds exactly with a block for it and then a place for its entry; failure leaves every file as it was |
| Namespace.Fs.CreateIn | src/kernel/fs.cpp:655-760 | the new file holds the data, its directory lists one entry more, nothing else has changed; it succeeds exactly with room for the data and then a place for the entry; failure leaves every file as it was |
| Namespace.Fs.Rm | src/kernel/fs.cpp:954-1033 | entry and inode are gone, exactly the bits of its blocks are cleared, nothing else has changed; it succeeds exactly for a file or a directory of at most two entries that a block names before any is broken; failure changes nothing |
| Namespace.SeededLists | src/kernel/fs.cpp:899-911 | the seeded block is tiled and lists the two dot entries |
| Namespace.MadeThenRemoved | src/kernel/fs.cpp:845-1033 | making and removing restores the parent's listing, when the entry is not first in its block |
| Namespace.CallShown | src/kernel/fs.cpp:655-1033 | a call that makes, creates, removes, edits or fails keeps the other directories as listed, and changes its own by exactly its entry |
| Namespace.RunShown | src/kernel/fs.cpp:655-1033 | over every run of these calls, as long as no removed entry is first in its block, all directories stay listable and list what the calls add up to |
| Namespace.RemovedIsNamed | src/kernel/fs.cpp:981-995 | what rm took is at most one entry, and it named the inode |
| Paths.Resolve | src/kernel/fs.cpp:430-486 | for every path and every base it returns the fold on the text, which for a canonical base that fits is the fold of the names; fails exactly when a name overflows the 256-byte buffer or the result the caller's; never writes out of bounds |
| Paths.TextFollows | src/kernel/fs.cpp:442-474 | on names joined, the fold on the text does what the fold of the names does, and overflows when it does |
| Paths.TextIsResolved | src/kernel/fs.cpp:430-486 | with a canonical base that fits, the text resolved is the names folded and joined |
| Paths.Pop | src/kernel/fs.cpp:455-464 | '..' in place, on any text: back over slashes, over the last name, and over its slash unless it is the root's; on names joined, the fold's pop |
| Paths.Push | src/kernel/fs.cpp:465-473 | a name is appended with a slash where there is none, exactly if it fits |
| Paths.ResolvedCanonical | src/kernel/fs.cpp:430-486 | the result is absolute and canonical |
| Paths.ResolvedFixed | src/kernel/fs.cpp:430-486 | a canonical path resolves to itself anywhere |
| Paths.ResolvedTwice | src/kernel/fs.cpp:430-486 | resolving is idempotent |
| Paths.ResolvedInTurn | src/kernel/fs.cpp:430-486 | resolving a path in two steps is resolving it at once |
| Paths.ResolvedLast | src/kernel/fs.cpp:430-486 | the last piece of a path leads from where the rest led: nowhere for '' and '.', to the parent for '..', the root's being the root, to the child for a name |
| Paths.ResolvedFirst | src/kernel/fs.cpp:430-486 | the first piece leads so from the root, or from the base |
| Paths.Chdir | src/kernel/fs.cpp:488-503 | on success the working directory is the first 127 characters of the path resolved, on failure it stays |
| Paths.Kept | src/include/task.h:65-65 | the path is kept whole exactly when it has at most 127 characters |
| Paths.KeptCanonicalIff | src/kernel/fs.cpp:500-501 | a canonical path that is cut stays canonical exactly when the cut ends neither in a slash nor in '.' or '..' as a name |
| Paths.ChdirInTurn | src/kernel/fs.cpp:488-503 | as long as the first result is kept whole, going there in two calls is going there in one |
| Paths.ChdirStaysIff | src/kernel/fs.cpp:488-503 | for a second call that stays where it is, exactly then |
| Paths.ChdirsCanonical | src/kernel/fs.cpp:488-503 | working directories stay canonical over every series of calls of which none is cut |
| Paths.CutExample | src/kernel/fs.cpp:500-501 | a path of 128 characters that leaves a working directory ending in '/.' |
| Paths.RenderCanonical | src/kernel/fs.cpp:430-486 | names joined split into themselves again |
| Paths.CanonicalRender | src/kernel/fs.cpp:430-486 | a canonical path is its names joined |
| Pipes.Unblock | src/kernel/task.cpp:367-377 | only the one task can change, from blocked to ready or by a remembered wake-up |
| Pipes.UnshareWakes | src/kernel/vfs.cpp:640-669 | dropping the last end of a kind wakes whoever waits for it |
| PipeRuns.UnshareExact | src/kernel/vfs.cpp:640-669 | counts after dropping a descriptor; the pipe shuts with the last of both kinds; nobody is woken but who waits for the last of its kind, and it is |
| Pipes.AssignTables | src/kernel/vfs.cpp:846-859 | copying over an entry changes that entry and no other, no bytes, and of other tasks only a wake-up |
| Pipes.AssignCounts | src/kernel/vfs.cpp:846-859 | copying a descriptor over another keeps counts equal to descriptors |
| Pipes.AssignKeeps | src/kernel/vfs.cpp:954-969 | close, dup2 and install keep the whole invariant |
| Pipes.CloseKeeps | src/kernel/vfs.cpp:688-694 | closing a whole table keeps it, and leaves none open |
| Pipes.DieKeeps | src/kernel/task.cpp:788-804 | so does exit |
| Pipes.ReapKeeps | src/kernel/task.cpp:621-637 | and reap |
| PipeRuns.ExitExact | src/kernel/task.cpp:788-804 | the task is a zombie with its table closed, others are touched by wake-ups only |
| PipeRuns.ReapExact | src/kernel/task.cpp:621-637 | no killed task is left in the slot, its table is closed, others are touched by wake-ups only |
| PipeRuns.ReapWakes | src/kernel/task.cpp:621-637 | whoever waited at a pipe whose other end went with the dead task is ready |
| PipeRuns.ReapAll | src/kernel/task.cpp:625-636 | after the whole loop nobody killed is left, only the current task may be a zombie, and the dead have closed their tables |
| Pipes.ForkCounts | src/kernel/task.cpp:765-769 | a forked table counts every end once more |
| Pipes.ForkShape | src/kernel/task.cpp:728-786 | the child is a ready task with the caller's table, and each pipe counts it once more per descriptor |
| Pipes.ForkKeeps | src/kernel/task.cpp:728-786 | fork keeps the whole invariant |
| Pipes.ShutPipe | src/kernel/vfs.cpp:797-808 | a free buffer is named by no descriptor and nobody is parked on it |
| Pipes.MakeKeeps | src/kernel/vfs.cpp:797-843 | pipe() keeps the invariant, running out of descriptors included |
| PipeRuns.MadeExact | src/kernel/vfs.cpp:797-843 | on success the first shut buffer is open and empty, with both histories empty and one descriptor of each kind in the first two free entries; all else is as it was |
| Pipes.ReadKeeps | src/kernel/vfs.cpp:748-770 | so does pipe_rd |
| Pipes.WriteKeeps | src/kernel/vfs.cpp:772-793 | and pipe_wr |
| Pipes.WokenKeeps | src/kernel/task.cpp:341-348 | and giving up the slot after a park |
| Pipes.ResumeKeeps | src/kernel/task.cpp:350-365 | and another turn of a waiting loop |
| Pipes.SwitchKeeps | src/kernel/task.cpp:282-304 | and a switch |
| Pipes.StepKeeps | src/kernel/vfs.cpp:640-969 | every step keeps: counts equal descriptors, a task parked reading means empty with a writer alive, parked writing means full with a reader alive, bytes read then ring equal bytes accepted, a running task is the current one |
| Pipes.RunKeeps | src/kernel/vfs.cpp:640-969 | ... over every interleaving |
| Pipes.Boot | src/kernel/task.cpp:213-231 | at boot it holds |
| Pipes.NotBothParked | src/kernel/vfs.cpp:748-793 | reader and writer of one pipe are never both parked |
| Pipes.NeverReissued | src/kernel/vfs.cpp:797-808 | a buffer is not handed out while a descriptor names it, and the clamps at zero never fire |
| Pipes.ReadDelivers | src/kernel/vfs.cpp:748-770 | a read returns as many bytes as are asked for and there, the oldest not read yet, in order: the next ones of those accepted |
| Pipes.WriteAccepts | src/kernel/vfs.cpp:772-793 | a write puts as many of the next bytes as there is room for behind those accepted, and parks exactly when some are left and a reader is; what it returns in the end counts all of them, across its parks, or is -1 |
| PipeRuns.StepRing | src/kernel/vfs.cpp:748-843 | one step on one ring: less what was read, with what was written, or empty when pipe() has just taken it |
| PipeRuns.RunBytes | src/kernel/vfs.cpp:748-843 | over every run: what a pipe has handed over since it was made, followed by its ring, is the concatenation of what the writes put in since |
| Pipes.EndOfFile | src/kernel/vfs.cpp:748-770 | zero is returned exactly when all was read and no write descriptor exists; with one it parks |
| Pipes.ReadLosesIff | src/kernel/vfs.cpp:753-754 | a wake-up can be lost after a read, now or in some run on, exactly when the read parks while another live task, parked or woken, is inside a read of the pipe |
| Pipes.WriteLosesIff | src/kernel/vfs.cpp:778-780 | likewise after a write: the data does not fit, a reader is left, and another live task is inside a write |
| Pipes.SecondReaderExample | src/kernel/vfs.cpp:753-754 | two states that keep all invariants, with the first reader parked and with it woken, where it is lost |
| Pipes.SelfInstallIff | src/kernel/vfs.cpp:846-859 | installing a descriptor onto itself keeps the counts exactly when the pipe has another one; the function is exported and has no caller yet |
| Pipes.SelfInstallExample | src/kernel/vfs.cpp:846-859 | a table where it does not |
| Pipes.LeaksIff | src/kernel/vfs.cpp:797-826 | pipe() leaks exactly when it finds a buffer but not two descriptors |
| Pipes.LeakExample | src/kernel/vfs.cpp:797-826 | a table where it does |
| Pipes.StepLeaks | src/kernel/vfs.cpp:797-826 | no step takes a leak back |
| Pipes.LeakIsForever | src/kernel/vfs.cpp:797-826 | a leaked buffer stays open over every run |
| PipeCode.Ring.constructor | src/kernel/vfs.cpp:573-583 | an empty ring |
| PipeCode.Ring.Push | src/kernel/vfs.cpp:783-785 | one byte more at the end, across the wrap-around |
| PipeCode.Ring.Take | src/kernel/vfs.cpp:758-763 | the oldest bytes out, the rest left in order |
| PipeCode.ViewPush | src/kernel/vfs.cpp:783-785 | storing at head plus count modulo the size appends |
| PipeCode.ViewTail | src/kernel/vfs.cpp:760-762 | moving the tail drops the oldest byte |
| PipeCode.FilledNext | src/kernel/vfs.cpp:783-790 | waking after every byte comes to waking once |
| PipeCode.Vfs.constructor | src/kernel/vfs.cpp:573-583 | every slot has a ring of its own, empty, and all pipes are shut |
| PipeCode.Vfs.Fresh | src/kernel/vfs.cpp:809-812 | a pipebuf cleared and empty, open, with one reader and one writer |
| PipeCode.Vfs.TakeBytes | src/kernel/vfs.cpp:758-763 | bytes leave the ring of the pipe, oldest first, and no other ring changes |
| PipeCode.Vfs.PutByte | src/kernel/vfs.cpp:783-785 | one byte more in the ring of the pipe, and no other ring changes |
| PipeCode.Vfs.WakeWriter | src/kernel/vfs.cpp:764-768 | whoever waits for room is told, and its slot is empty |
| PipeCode.Vfs.WakeReader | src/kernel/vfs.cpp:787-790 | whoever waits for a byte is told, and its slot is empty |
| PipeCode.Vfs.FindTwo | src/kernel/vfs.cpp:814-824 | the first two free entries of a table |
| PipeCode.CloseThenCopy | src/kernel/vfs.cpp:954-969 | closing and then copying over an entry is one assignment |
| PipeCode.Vfs.WakeSlot | src/kernel/task.cpp:367-377 | wakes whoever is in the slot |
| PipeCode.Vfs.FdUnshare | src/kernel/vfs.cpp:640-669 | the step Unshare |
| PipeCode.Vfs.OneEndFewer | src/kernel/vfs.cpp:646-668 | the counts and slots of a pipe with one descriptor fewer, and whom to wake |
| PipeCode.Vfs.FdShare | src/kernel/vfs.cpp:697-707 | the step Share |
| PipeCode.Vfs.CloseIn | src/kernel/vfs.cpp:671-681 | the step that closes an entry |
| PipeCode.Vfs.FdCloseAll | src/kernel/vfs.cpp:688-694 | the loop over the table is CloseFrom |
| PipeCode.Vfs.Dup2 | src/kernel/vfs.cpp:954-969 | an assignment, or nothing for the same entry |
| PipeCode.Vfs.FdInstall | src/kernel/vfs.cpp:846-859 | an assignment into another table |
| PipeCode.Vfs.ForkInto | src/kernel/task.cpp:765-769 | the step Fork |
| PipeCode.Vfs.ExitCurrent | src/kernel/task.cpp:788-804 | the step Exit |
| PipeCode.Vfs.PipeCall | src/kernel/vfs.cpp:797-843 | the step MakePipe and the two descriptors it returns |
| PipeCode.Vfs.BlockOnRead | src/kernel/task.cpp:341-365 | parks, or spends a remembered wake-up first |
| PipeCode.Vfs.BlockOnWrite | src/kernel/task.cpp:341-365 | likewise |
| PipeCode.Vfs.PipeRd | src/kernel/vfs.cpp:748-770 | the step Read, on the ring itself, and the bytes it hands over |
| PipeCode.Vfs.PipeWr | src/kernel/vfs.cpp:772-793 | the step Write, byte by byte into the ring itself; it returns all that was put, before a park and after |
| Notes.RoomForNote | src/kernel/task.cpp:603-612 | when a live process ends, its parent's list has room and no list mentions its pid |
| Notes.FinishKeeps | src/kernel/task.cpp:788-804 | a process ending keeps the invariant, and its end, of which there was none, is on record with its code |
| Notes.FinishTells | src/kernel/task.cpp:603-619 | the parent's list gains one note, of that pid and code, the parent is unblocked if it waits, and nobody else changes |
| Notes.ReapKeeps | src/kernel/task.cpp:621-637 | reap keeps all, and leaves no dead process but possibly the current one |
| Notes.CollectKeeps | src/kernel/task.cpp:639-653 | handing out a note and filling its hole keeps the rest distinct and true |
| Notes.WaitTurnKeeps | src/kernel/task.cpp:655-696 | a turn of wait_for keeps the invariant |
| Notes.ResumeKeeps | src/kernel/task.cpp:689-695 | and so does the next turn |
| Notes.ForkKeeps | src/kernel/task.cpp:728-786 | a reused pid is mentioned in no list |
| Notes.FailedForkForgetsIff | src/kernel/task.cpp:738-757 | a fork that fails for memory leaves the notes alone exactly when there was none to lose |
| Notes.FailedForkExample | src/kernel/task.cpp:738-757 | a run from boot, of six steps, in which a note is lost |
| Notes.StepKeeps | src/kernel/task.cpp:282-804 | every step keeps: noted pids distinct over all lists, each note true of the pid's last holder, nobody parked with a note it asked for |
| Notes.RunKeeps | src/kernel/task.cpp:282-804 | ... over every run |
| Notes.BootOk | src/kernel/task.cpp:213-231 | with init alone it holds |
| Notes.CollectedOnce | src/kernel/task.cpp:639-696 | no end is collected twice, and wait returns the code it ended with |
| Notes.NoOverflow | src/kernel/task.cpp:609-612 | in every reachable state the full-list branch of announce is dead |
| Notes.NoMissedNote | src/kernel/task.cpp:603-696 | in every reachable state a process parked in wait_for has no note it asked for, and a child named is alive and its own |
| NoteFate.StepHandles | src/kernel/task.cpp:603-804 | what one step does to all notes: new ends are noted with a parent alive or collected at once, old ones stay, are collected, or are forgotten by a fork |
| NoteFate.NoNoteLost | src/kernel/task.cpp:603-804 | over every run from boot: once a process ended under a live parent, its end is in the parent's list or collected, exactly unless a fork has meanwhile taken the slot of the pid or of the parent with the note still there |
| NoteFate.NoteStays | src/kernel/task.cpp:34-804 | ... for any note in any run; once forgotten it is in no list and in no log again |
| NoteFate.OnlyParentCollects | src/kernel/task.cpp:639-696 | a note is collected by the process whose list it is in, and by nobody else |
| NoteFate.TurnHands | src/kernel/task.cpp:639-668 | a turn of wait_for collects exactly when its list, after reap, has a note of the pid asked for, or any for 0; it is the first such one, with its code, and only that leaves the list |
| NoteFate.TurnParks | src/kernel/task.cpp:655-687 | with nothing to collect it parks exactly when it waits for any child, or for one the caller has |
| NoteFate.Interrupted | src/kernel/task.cpp:689-695 | back from a park with a signal pending it returns at once, and collects nothing |
| NoteFate.CollectsAsked | src/kernel/task.cpp:639-696 | over every run: nothing is collected but by a turn of wait_for, and then a note of the pid it waits for |
| NoteFate.EndCodes | src/kernel/task.cpp:538-553 | the code on record is that of exit, or 128 and the signal |
| NoteFate.KilledEnds | src/kernel/task.cpp:625-636 | a killed process is gone after the next reap, with 128 and the signal on record |
| NoteFate.SignalEnds | src/kernel/task.cpp:526-545 | and so is one that got a signal it does not catch |
| NoteFate.ForkMakes | src/kernel/task.cpp:728-786 | the child is in the first free slot, a new life of that pid, the caller's child, without notes; all others lose at most notes of that pid |
| NoteFate.WakeNotLost | src/kernel/task.cpp:350-377 | a wake-up before a park is spent by it, one after it ends it, and none counts twice |
| NoteCode.Packed | src/kernel/task.cpp:36-46 | packing a list in place filters it |
| NoteCode.Table.PurgeNotes | src/kernel/task.cpp:34-47 | every list without the pid, nothing else changed |
| NoteCode.Table.FindTask | src/kernel/task.cpp:59-64 | the step Find |
| NoteCode.Table.Unblock | src/kernel/task.cpp:367-377 | the step Unblocked |
| NoteCode.Table.Announce | src/kernel/task.cpp:603-619 | the step Announced |
| NoteCode.Table.End | src/kernel/task.cpp:788-799 | the step Finish |
| NoteCode.Table.ReapAll | src/kernel/task.cpp:625-636 | the step Reap |
| NoteCode.Table.TakeDone | src/kernel/task.cpp:639-653 | the first note asked for, the last one in its place |
| NoteCode.Table.WaitFor | src/kernel/task.cpp:655-689 | the step WaitTurn, and its answer: the child collected, no such process, not a child, nothing yet, or a park, exactly |
| NoteCode.Table.Block | src/kernel/task.cpp:350-365 | the step Parked |
| NoteCode.Table.ForkUser | src/kernel/task.cpp:728-786 | the step Forked, and the pid it returns |
| Signals.FrameReads | src/include/syscall.h:142-153 | the thirteen saved fields are where sigreturn reads them |
| Signals.TrampolineReads | src/kernel/task.cpp:508-513 | the last words of the frame are code that calls sigreturn |
| Signals.DeliverEnters | src/kernel/task.cpp:468-524 | the handler runs on a frame below the stack in use, with its signal and its frame as arguments and a return address whose code calls sigreturn; no other byte of memory changes |
| Signals.DeliversIff | src/kernel/task.cpp:468-481 | with no handler running, delivery is refused for want of a handler or of stack, never for the mask |
| Signals.PendingEnters | src/kernel/task.cpp:593-601 | on the way to user code a pending signal enters its handler exactly if it has one and there is stack; else it is dropped and nothing changes |
| Signals.PendingWaits | src/kernel/task.cpp:593-595 | while a handler runs nothing is delivered |
| Signals.StepClean | src/kernel/task.cpp:468-601 | no handler running means an empty mask, after every event |
| Signals.RunClean | src/kernel/task.cpp:468-601 | ... over every run |
| Signals.NoNesting | src/kernel/task.cpp:555-601 | a handler starts only when none runs, or when the one that ran has returned |
| Signals.ReturnSteps | src/kernel/task.cpp:555-591 | a handler's return leads into the next handler on the same frame exactly if a signal with a handler is pending, and home otherwise |
| Signals.ChainRestores | src/kernel/task.cpp:468-601 | after any chain of back-to-back signals the thirteen fields and the mask are as before the first |
| Signals.Process.constructor | src/kernel/task.cpp:742-744 | a new process: no handlers, nothing held off, nothing pending |
| Signals.Process.Deliver | src/kernel/task.cpp:468-524 | delivers exactly when it should, and then the step Delivered |
| Signals.Process.DeliverNext | src/kernel/task.cpp:593-601 | the step PendingDelivered |
| Signals.Process.Sigreturn | src/kernel/task.cpp:555-591 | the step Returned |
| Scheduler.Pick | src/kernel/task.cpp:306-314 | the ready slot at the least distance round the table, none exactly when nobody is ready |
| Scheduler.Preempt | src/kernel/task.cpp:425-450 | a tick in the kernel changes nothing, one in user code spends the quantum, the last one switches, and so does any with the running process dead |
| Scheduler.StepNearer | src/kernel/task.cpp:306-450 | every user tick and every switch brings a ready process's turn nearer |
| Scheduler.BoundedWaiting | src/kernel/task.cpp:282-450 | for any table size n, who stays ready runs within 2n user ticks and switches |
| Scheduler.PickedWithinTable | src/kernel/task.cpp:306-314 | and within n successful picks |
| ExecArgs.CopyArgs | src/kernel/exec.cpp:122-143 | fails exactly for a string of 192 bytes or more; otherwise the flat buffer holds all strings |
| ExecArgs.CopyStrs | src/kernel/exec.cpp:124-130 | one loop of it |
| ExecArgs.CountArgs | src/kernel/exec.cpp:62-69 | counting NULs up to the length gives argc |
| ExecArgs.PushStrs | src/kernel/exec.cpp:76-93 | strings one under the other, pairwise apart and inside the stack; fails exactly when they do not fit |
| ExecArgs.PushTable | src/kernel/exec.cpp:99-113 | argc, argv, null, envp, null, upwards from the stack pointer |
| ExecArgs.BuildStack | src/kernel/exec.cpp:57-114 | the whole image, table and strings disjoint; fails exactly when it does not fit |
| ExecArgs.ProgramSees | src/apps/crt0.asm:22-28 | following argc, argv and the envp computed as crt0 does gives exactly the original strings |
| ExecArgs.PassArguments | src/kernel/exec.cpp:57-143 | with at most 16 arguments and 32 environment strings, it fails only for a string too long, and otherwise the program reads what copy_args was given |
| ExecArgs.Gather | src/kernel/syscall.cpp:132-151 | one vector as far as there is room, whole exactly when it fits |
| ExecArgs.Execve | src/kernel/syscall.cpp:132-159 | for any numbers of strings: it fails only for a string too long among the first 16 and 32, and otherwise the program reads those, which are all that were passed exactly when there are no more than 16 and 32 |
| Glob.ClassEnd | src/apps/sh.cpp:700-710 | the bracket that closes a class, or that none does |
| Glob.ClassMatch | src/apps/sh.cpp:712-735 | whether the character is in the class, with ranges and negation |
| Glob.MatchesOne | src/apps/sh.cpp:760-771 | one token takes one character |
| Glob.MatchesAny | src/apps/sh.cpp:748-757 | a star takes any number |
| Glob.GlobMatch | src/apps/sh.cpp:746-775 | true exactly when the name can be cut into one piece per token of the pattern; terminates |
| Glob.StarMatch | src/apps/sh.cpp:748-757 | the loop behind a star |
| Glob.HasGlob | src/apps/sh.cpp:737-744 | true exactly when something in the word is not just itself |
| Glob.PlainMatches | src/apps/sh.cpp:737-775 | a word without that matches itself and nothing else |

## Left out

- Boot code, descriptor tables, interrupt controllers, the switch assembly, disk, serial, screen, console and keyboard drivers: hardware. A block device is a sequence of blocks, a switch changes the current task.
- Paging: TLB flushes, CR3 loads, kernel-mode writes to user pages, the four directory frames of a space, and the freeing of frames by task.cpp and exec.cpp. Set-up maps frames nobody else maps.
- Paging.MapValid: the table is not shared with a group and the frame is mapped nowhere, as at set-up and in the fault handler, the only callers.
- Paging.ShareRefines: the child is in no group, as a space fresh from space_create is, the only kind fork passes; for another, the source would free tables its group still uses.
- Pager.Mmu.SpaceShareUser: likewise, the child is in no group.
- Pager.Mmu.SpaceCreate: a failed creation gives nothing back, as in the source; the memory it loses is modelled as allocated for good.
- HeapMemory.Arena.constructor: takes the range; the scan of the memory map that finds it (src/kernel/lib/heap.cpp:81-95) is left out.
- HeapMemory.Arena.KframeAllocN: pages * 4096 + 16 must not wrap, and memory is smaller than 2^31 bytes; `prev_size` is never read and is not modelled; counters do not wrap.
- HeapMemory.Arena.Kfree: a pointer into the middle of a payload whose bytes look like a live header is outside the model.
- HeapMemory.Arena.Krealloc: likewise.
- HeapClient.Program.PerformAll: stands for any program that frees only what it has; the source has no such loop.
- Volumes.Volume.WriteAt: the branch that fills a hole (src/kernel/fs.cpp:783-794) is left out, so the offset is at most the size; offset plus length does not wrap.
- Volumes.Volume.WriteFile: path lookup and the inode bitmap are left out: the inode found, or a free one, is given. The parent's entry is Namespace.Fs.CreateIn.
- Namespace.RunShown: a failed mkdir may leave a directory without a name behind; it is not among those tracked.
- Namespace.Fs.Mkdir: link counts are left out; when the entry cannot be added the new inode stays behind without a name, as in the source. Names are shorter than 256 bytes, as every resolved path is.
- Volumes.Volume.PerformAll: stands for any sequence of system calls; the source has no such loop.
- ext4: commit_counts totals, the byte layout of inodes, the high half of extent starts, indirect maps, deeper extent trees, several block groups, failing device calls.
- DirectoryCode.Scratch.FindTail: every record the walk reaches holds its own name, which the source assumes without a check.
- DirectoryCode.Scratch.ListBlock: likewise.
- DirectoryCode.Scratch.FindIno: likewise.
- Pipes: runs have at most one task inside a read and one inside a write of a pipe at a time; exactly when another one loses a wake-up is Pipes.ReadLosesIff and Pipes.WriteLosesIff. Signals that interrupt a pipe call are spurious wake-ups here.
- Notes: wake-ups that closing descriptors causes are steps of their own; task::create, used by kernel self-tests only, and a tick-time signal aimed at the current process are excluded; init dying is a panic, so no step follows.
- Signals: the write-back of eax by syscall.asm after sigreturn. A mask is a set of signal numbers.
- Signals.Process.Sigreturn: a frame that reaches past the top of memory ends the process here.
- Scheduler: that a running task is the current one is part of Pipes.StepKeeps.
- ExecArgs: loading the program image.
- Glob: expansion against a directory, quoting, the rest of the shell.
- The userspace malloc, the tty line discipline, procfs, printf, timers and the small programs: the same shape as something modelled here, or easy, or input and output only.
