# Verified models of the xv6 kernel core

This project models the parts of an x86 xv6 kernel, extended with copy-on-write `fork` and a lazy
`wmap`/`wunmap` facility, whose correctness is hardest to see from the code, and proves what they
promise over every input and every run. `dafny verify dfyconfig.toml` checks all of it.

Each part has the same layers. Pure functions say what an operation does to a state. Classes whose
methods have the code's loops and field updates are proved to compute those functions. A state
machine takes the operations in any order and any interleaving, and theorems about its runs state
the guarantees.

| part | files | main results |
|---|---|---|
| redo log | `Disk`, `Log`, `LogCode`, `LogRuns`, `LogTheorems`, `LogOverflow` | `CrashSafety`, `CrashSafetyIff`, `AllOrNothing`, `EndedIsCommitted`, `RecoverySurvivesCrashes`, `CommitCrashAtomic`, `ReservationHolds`, `ReservationIff` |
| buffer cache | `Bcache`, `BcacheReads`, `BcacheCode` | `CacheAgreesWithDisk`, `ReadsLatest`, `RecyclesOldest`, `DirtyStays`, `UserKeepsBlock`, `GetPanics` |
| copy-on-write memory | `Cow`, `CowRuns`, `CowTheorems`, `CowLoads`, `CowFrames`, `CowCode` | `CowRefinesCopying`, `LoadsAsIfCopied`, `StoreThenLoad`, `CountsBoundSharing`, `CountsStayExact`, `LastSharerStores`, `SbrkFrames`, `ForkFrames`, `StoreRefused`, `SbrkKeepsPages` |
| copy-on-write on several processors | `CowRaces`, `CowRaceSteps`, `CowIsolation` | `Isolation`, `PagesArePrivate`, `CountsCoverMappings`, `CountOneAlone` |
| two-level page tables | `PageTable` | `WalkKeepsFlat`, `SetPteFlat`, `MapPages` |
| files | `Fs`, `FsFile`, `FsLog`, `FsSpace`, `FsCode` | `Writei`, `Readi`, `Itrunc`, `FileWrite` with all that changes logged, `ChunkFits`, `RunsKeepOwnership` |
| user heap | `Umalloc`, `UmallocRuns`, `UmallocCode` | `BlocksStayApart`, `GivenBackMerges`, `MallocGood`, `Malloc`, `SizesHold` |
| pipe | `Pipe`, `PipeRuns`, `PipeCalls`, `PipeTheorems`, `PipeLocks`, `PipeSleep`, `PipeCode` | `StepRefines`, `FirstInFirstOut`, `WholeCalls`, `EndsClose`, `StepAwake`, `NoLostWakeup`, `NeverBothAsleep`, `OwedIsPaid` |
| wmap table | `Wmap`, `WmapFork`, `WmapRuns`, `WmapRaces`, `WmapCode` | `WmapAnswers`, `TidyIff`, `CopiedIff`, `TablesStayCoherent`, `OverlapTestIff`, `SlotsShareByteIff`, `UnmappedIsGone` |
| pattern matcher | `Grep` | `Match`, `ConsBegins` |

Log and disk: one `bwrite` is one atomic step, and a crash may fall between any two of them, also
during recovery, and loses all memory. `log_write` is two steps, its test outside the lock and its
append inside. LOGSIZE, MAXOPBLOCKS and the size of the log area are parameters.

In the copy-on-write part page tables are maps from process and page number to frame and flags; the
allocation of page-table pages and the frames that `sbrk`, `fork` and the fault handler find free
enter as parameters or as the free list. `CowRuns` takes system calls and faults one at a time, with
all their failures; `CowRaces` cuts the fault handler, `copyuvm` and `allocuvm` into their single
accesses to page tables, frames and counts and lets those of different processes interleave.

The pipe has two machines as well: `PipeRuns` takes `sleep` and `wakeup` as single steps, and
`PipeLocks` has the lock of the process table, `sleep` in its stages and `wakeup` slot by slot, and
is proved to refine it.

What `sbrk` answers is a parameter of `malloc`. In the `wmap` part the child of a `fork` runs while
its parent copies the mappings slot by slot. Integers are unbounded unless the code relies on their
width; where it does (pipe counters, `wmap` addresses, `growproc`, file offsets, `malloc` sizes, the
8-bit frame counts) the wrap or the saturation is written out.

Places where the code does not do what one would expect are stated as exact conditions:

- The reservation of log space keeps its promise for blocks not yet logged if and only if the log
  area has more than LOGSIZE blocks (`ReservationIff`). `mkfs.c` makes it LOGSIZE blocks, header
  included, so an operation within its budget can meet the "too big a transaction" panic. With a
  larger area a write within budget is refused exactly at a full header, and is then a repeated
  write by an operation whose budget is spent (`ReservationHolds`, with a run in
  `RepeatedWriteRefused`).
- The test of `log_write` is outside the lock. Two operations that both pass it overfill an area of
  LOGSIZE blocks, and the next commit overwrites the block behind the area: crash safety holds in
  every run within budget if and only if the area has more than LOGSIZE blocks, or is too small to
  log anything (`CrashSafetyIff`, with the run in `OverflowRun`).
- A shrinking `sbrk` that gives back everything unmaps the pages, returns -1 and keeps `sz`
  (`SbrkKeepsPages`). `copyuvm` makes every writable page accessible to the user, in parent and
  child, so access bits are not claimed to survive `fork` unchanged; the copying kernel used for
  comparison does the same. `deallocuvm` never frees a frame that was mapped
  (`UnmapNeverFrees`, `FramesAreNotReclaimed`). A growing `sbrk` that runs out of memory loses all the
  frames it had mapped, and a `fork` that fails leaves counts raised (`SbrkFrames`, `ForkFrames`). A
  store at or above `sz` inside a page that is still copy-on-write is refused (`StoreRefused`).
- The fault handler lowers the count of a frame before it clears its own entry, and `copyuvm` raises
  it after it has mapped the child's page. In between a count can be below the number of mappings
  (`WindowRun`). Counts cover all mappings but those, and no interleaving lets a store show in
  another process (`CountsCoverMappings`, `Isolation`).
- `malloc` computes sizes and the argument of `sbrk` correctly exactly for requests of up to
  2^31 - 16 bytes (`SizesHold`); beyond that `sbrk` is never asked for more than was meant
  (`AskedShort`). What `malloc` lists and hands out then is more than was obtained, exactly for the
  sizes asked for wrongly (`ListedIff`, with a run in `WrongSizeRun`).
- A pipe loses a wakeup exactly when a killed writer leaves a full pipe while a reader sleeps
  (`StepAwake`, with a run that does so in `KilledWriterLosesWakeup`). With `sleep` releasing the
  pipe's lock before it takes that of the process table a wakeup is lost without any kill
  (`OtherOrderLoses`).
- `sys_wmap` accepts a mapping outside its window exactly when the end of the mapping wraps past
  2^32 (`AcceptedIff`). The overlap test finds shared bytes exactly when both mappings are in the
  window, or the one that wraps does not reach the other's start (`OverlapTestIff`), so two live
  slots of a process share a byte exactly when both wrap or one wraps into the other
  (`SlotsShareByteIff`, `WrappedMappingTwice`), as long as children wait for their mappings. A wrapped mapping can never be taken down by
  `wunmap` and answers no fault (`WrappedStays`). The last page of the window can be mapped but never
  loaded (`LastPageKills`).
- `fork` makes the child runnable before `copyWmap` fills its table. A child that maps, unmaps, forks
  or exits before that can end with two slots on one page and a wrong total (`EarlyMapRun`). Over all
  runs the tables stay right but for the total if and only if every slot copied finds no mapping of
  the child in its way and overwrites none with pages (`TidyIff`), and the child is coherent exactly
  when the parent's total is right for it too (`CopiedIff`). For children that wait, everything holds
  (`TablesStayCoherent`, `ForkGivesAll`).

The comment in `vm.c` on `dellocateAndUnmap` speaks of writing back when MAP_SHARED is set; the code
looks at the file-backed flag.

## Model

| member | source | states |
|---|---|---|
| Disk.ApplyPrefixAgain | xv6-public/log.c:69-82 | redoing a list of block writes after any prefix of it gives the same disk |
| Log.Encode | xv6-public/log.c:98-113 | the header block written for a list of blocks reads back as that list |
| Log.InstallPrefix | xv6-public/log.c:69-82 | a partly done installation leaves the log area and every block not named in the header alone |
| Log.RecoverResult | xv6-public/log.c:115-122 | recovery empties the log, keeps every other block, and is idempotent |
| Log.RecoverAfterPartial | xv6-public/log.c:115-122 | a crash after any number of recovery's writes leaves a disk that recovers to the same disk |
| Log.RecoverySurvivesCrashes | xv6-public/log.c:69-122 | any number of crashed recoveries and one complete one give the disk of a single recovery, with an empty header |
| Log.CommitIsRecovery | xv6-public/log.c:192-202 | after the header write the rest of a commit is write for write a recovery |
| Log.RecoverInstalls | xv6-public/log.c:69-122 | recovery after the header write gives every logged block its new contents and changes nothing else |
| Log.CommitCrashAtomic | xv6-public/log.c:176-202 | whatever prefix of a commit's writes reached the disk, recovery shows all old or all new contents, split at the header write |
| Log.CommitComplete | xv6-public/log.c:192-202 | a finished commit has installed exactly the logged blocks and left an empty log |
| LogCode.Journal.constructor | xv6-public/log.c:53-66 | after a boot memory is empty and the disk is what the crash left |
| LogCode.Journal.Bread | xv6-public/bio.c:95-106 | a read returns the cached copy if there is one, else the disk block, and caches it |
| LogCode.Journal.Bwrite | xv6-public/bio.c:108-116 | one disk write, recorded in order, leaves the buffer clean |
| LogCode.Journal.CopyBlock | xv6-public/log.c:74-80 | one round of a copying loop is one disk write, and no other block reads differently |
| LogCode.Journal.InstallBlock | xv6-public/log.c:74-80 | one round of the installation copies one slot home, unpins that block and leaves the slots alone |
| LogCode.Journal.WriteLog | xv6-public/log.c:176-190 | the loop writes the latest contents of the logged blocks to the log slots, in order, and nothing else |
| LogCode.Journal.WriteHead | xv6-public/log.c:98-113 | one write puts the in-memory header on disk |
| LogCode.Journal.WriteCommit | xv6-public/log.c:195-197 | log slots then header: exactly the writes up to the commit point |
| LogCode.Journal.InstallTrans | xv6-public/log.c:68-82 | the loop copies the slots to the home blocks in order and unpins exactly those |
| LogCode.Journal.ReadHead | xv6-public/log.c:84-96 | the in-memory header becomes what the header block on disk says |
| LogCode.Journal.InstallAndClear | xv6-public/log.c:115-122 | install and clear write exactly what recovery of that disk writes |
| LogCode.Journal.RecoverFromLog | xv6-public/log.c:115-122 | the disk becomes the recovered disk by exactly the writes that the crash theorems cut |
| LogCode.Journal.Commit | xv6-public/log.c:192-202 | the disk writes, in order, are those of the crash-atomicity theorem |
| LogCode.Journal.BeginOp | xv6-public/log.c:124-141 | an operation is admitted exactly when no commit runs and the worst case of all operations fits |
| LogCode.Journal.LogTest | xv6-public/log.c:218-221 | the test before the lock passes exactly when there is room and an operation is open |
| LogCode.Journal.LogAppend | xv6-public/log.c:223-232 | under the lock the block is pinned and recorded once, whatever the header holds by now |
| LogCode.Journal.LogWrite | xv6-public/log.c:204-233 | the sequential call: the panics are exact, else the block is pinned and recorded once and repeated writes are absorbed |
| LogCode.Journal.EndOp | xv6-public/log.c:143-174 | only the last operation out commits, with the commit's writes; otherwise the disk does not change |
| LogRuns.StepInv | xv6-public/log.c:125-233 | every step of any interleaving is possible when enabled and keeps the invariant, as long as an append finds room in the log area |
| LogRuns.CrashInv | xv6-public/log.c:53-66 | losing all memory at any point leads back to a state that satisfies the invariant |
| LogRuns.CommitStepInv | xv6-public/log.c:176-202 | each single write of a commit keeps the invariant, the header write moving the transaction to the committed ones |
| LogRuns.ExecInv | xv6-public/log.c:53-233 | the invariant holds after every run of operations, unlocked tests, appends, disk steps, cache traffic and crashes in which appends find room |
| LogTheorems.CrashSafety | xv6-public/log.c:53-233 | at every point of every run whose appends find room, crash and recovery show the initial disk with exactly the committed transactions applied in order |
| LogTheorems.ReadsAreCurrent | xv6-public/log.c:204-233 | in the same runs, while the system runs, a read returns the committed contents plus the open transaction |
| LogTheorems.AllOrNothing | xv6-public/log.c:143-174 | in every run (up to a recovery that meets an overfull header) an operation's writes are in no committed transaction or, all and in order, in exactly one, and it had ended by then |
| LogTheorems.EndedIsCommitted | xv6-public/log.c:143-174 | when the system runs and nothing is active, all an operation wrote since its begin is in one committed transaction, unless there was a crash |
| LogTheorems.OrderlyExec | xv6-public/log.c:124-233 | in every run, full log or not (up to a recovery that meets an overfull header), header and open transaction name the same distinct blocks and nobody is active during a commit |
| LogTheorems.CommitIsQuiet | xv6-public/log.c:125-174 | in every run (up to a recovery that meets an overfull header), during a commit no operation is active or can start, test, write or end, and header and pinned blocks stay as they are |
| LogTheorems.ReservationHolds | xv6-public/log.c:124-141 | with all operations within budget the header never exceeds LOGSIZE and its blocks are distinct; with a larger log area a write within budget is refused exactly at a full header, and is then a repeated write by an operation whose budget is spent |
| LogTheorems.InBudgetIsRoomy | xv6-public/log.c:130-136 | with a log area above LOGSIZE every append of a run within budget finds room, whoever tested before it |
| LogOverflow.ReservationIff | xv6-public/log.c:213-219 | no operation with budget left is ever refused if and only if the log area has more than LOGSIZE blocks |
| LogOverflow.RepeatedWriteRefused | xv6-public/log.c:218-227 | a run to a full header in which a repeated write within budget is refused, for every area above LOGSIZE |
| LogOverflow.BothTest | xv6-public/log.c:218-230 | two operations that both pass the unlocked test fill the header past the log area |
| LogOverflow.OverflowRun | xv6-public/log.c:176-190 | a run within budget after which a crash shows a block no transaction wrote, for every area of at most LOGSIZE blocks |
| LogOverflow.NothingLogged | xv6-public/log.c:218-219 | an area too small for one block lets no write pass the test |
| LogOverflow.CrashSafetyIff | xv6-public/log.c:213-233 | every run within budget is crash safe if and only if the area has more than LOGSIZE blocks or fewer than two |
| Bcache.MoveToFrontPermutes | xv6-public/bio.c:128-138 | moving a buffer to the front keeps the ring a permutation of all buffers |
| Bcache.GetInv | xv6-public/bio.c:62-93 | finding or recycling a buffer keeps the cache invariant |
| Bcache.StepInv | xv6-public/bio.c:38-141 | every cache operation keeps the invariant |
| Bcache.ExecInv | xv6-public/bio.c:38-141 | the cache invariant holds after every run |
| Bcache.CacheAgreesWithDisk | xv6-public/bio.c:38-141 | in every run a block sits in at most one buffer, a valid buffer holds the latest contents written, and clean blocks are on disk |
| Bcache.NeverRecycled | xv6-public/bio.c:77-91 | no step recycles a referenced or dirty buffer |
| Bcache.UserKeepsBlock | xv6-public/bio.c:62-141 | from its bget to its brelse a process keeps its buffer for that block, whatever others do |
| Bcache.DirtyStays | xv6-public/bio.c:77-91 | until a bwrite of that very buffer a dirty buffer keeps its block, holds its latest contents and leaves the disk copy alone, with or without users |
| Bcache.GetPanics | xv6-public/bio.c:80-92 | bget panics exactly when the block is not cached and every buffer is in use |
| BcacheReads.GetIs | xv6-public/bio.c:62-93 | the buffer returned is the one for the block, the caller is one user more, no other buffer changes, a hit keeps contents and flags, and a miss empties a buffer that was idle |
| BcacheReads.LatestIsLast | xv6-public/bio.c:108-116 | in every run the latest contents of a block are what was put in it last, or what the disk had at the start |
| BcacheReads.ReadsLatest | xv6-public/bio.c:95-106 | in every run, bread with any interleaving between its bget and its lock gives the latest contents of the block asked for |
| BcacheReads.HeldIsLatest | xv6-public/bio.c:95-106 | a valid buffer holds the latest contents of its block, and filling an invalid one makes it so |
| BcacheReads.RingIsOrdered | xv6-public/bio.c:128-138 | in every run the ring lists the buffers by when they were last given up, latest first |
| BcacheReads.RecyclesOldest | xv6-public/bio.c:77-91 | in every run a miss recycles, among the idle clean buffers, the one given up longest ago |
| BcacheCode.LinkFront | xv6-public/bio.c:132-138 | the four link writes put the buffer at the front of the ring and keep it a ring |
| BcacheCode.Unlinked | xv6-public/bio.c:130-131 | the two link writes take one buffer out of the ring and keep the rest in order |
| BcacheCode.BufferCache.constructor | xv6-public/bio.c:38-56 | binit links all buffers into one ring |
| BcacheCode.BufferCache.InsertFront | xv6-public/bio.c:47-55 | the ring gains the buffer at its front |
| BcacheCode.BufferCache.Unlink | xv6-public/bio.c:130-131 | the ring loses exactly that buffer |
| BcacheCode.BufferCache.FindCached | xv6-public/bio.c:68-76 | the forward scan stops at the first buffer that holds the block, or at the head |
| BcacheCode.BufferCache.FindIdle | xv6-public/bio.c:80-91 | the backward scan stops at the last idle buffer of the ring, or at the head |
| BcacheCode.BufferCache.Bget | xv6-public/bio.c:58-93 | a buffer that holds the block is returned, held by the caller and with every other buffer as it was, or the panic comes exactly as the specification says |
| BcacheCode.BufferCache.Claim | xv6-public/bio.c:58-93 | the scans and link updates do what the specification of bget says, panic included |
| BcacheCode.BufferCache.Bread | xv6-public/bio.c:95-106 | the buffer returned is locked by the caller and holds the latest contents of the block asked for |
| BcacheCode.BufferCache.LockAndFill | xv6-public/bio.c:95-106 | an invalid buffer is filled from the disk, a valid one is left alone |
| BcacheCode.BufferCache.WriteBlock | xv6-public/bio.c:108-116 | the holder's new contents reach the disk and the buffer is clean |
| BcacheCode.BufferCache.Refresh | xv6-public/bio.c:128-138 | the buffer moves to the most recently used end |
| BcacheCode.BufferCache.Brelse | xv6-public/bio.c:118-141 | the last release moves the buffer to the front, an earlier one does not |
| Cow.DropInv | xv6-public/vm.c:282-307 | removing an entry keeps counts upper bounds of the mappings |
| Cow.MapFreshInv | xv6-public/vm.c:247-275 | mapping a fresh frame with count 1 keeps the invariant |
| Cow.AddRefInv | xv6-public/vm.c:346-382 | one more read-only mapping with a raised count keeps the invariant |
| Cow.RefsBound | xv6-public/param.h:1 | a frame is mapped at most once per process, so by at most NPROC entries |
| CowRuns.UnmapNeverFrees | xv6-public/vm.c:282-307 | clearing a mapped entry never frees its frame |
| CowRuns.CountOneMeansSole | xv6-public/vm.c:724-738 | a count of 1 at a fault means that no other entry maps the frame |
| CowRuns.SplitAbs | xv6-public/vm.c:690-766 | the fault handler makes the page writable and changes nothing any process sees |
| CowRuns.PokeAbs | xv6-public/vm.c:733-738 | a store through a writable entry is seen by that process at that page only |
| CowRuns.ForkOk | xv6-public/vm.c:346-382 | a successful copyuvm gives the child what a full copy would give it |
| CowRuns.ForkFailed | xv6-public/proc.c:203-209 | a failed fork leaves every process with the contents it had |
| CowRuns.SbrkGrows | xv6-public/proc.c:172-188 | growing adds zeroed pages, or fails and changes nothing, as in the copying kernel |
| CowRuns.SbrkShrinks | xv6-public/proc.c:172-188 | shrinking removes the pages above the new size, as in the copying kernel |
| CowRuns.StoreRefines | xv6-public/vm.c:690-766 | a store with its fault does what the store of the copying kernel does |
| CowRuns.ExitRefines | xv6-public/proc.c:257-314 | exit lowers no count of a user frame and changes no page |
| CowRuns.WaitRefines | xv6-public/proc.c:319-358 | reaping a child removes its pages and no others |
| CowRuns.StepRefines | xv6-public/vm.c:247-382 | every step of the copy-on-write kernel is a step of the copying kernel |
| CowTheorems.BootGood | xv6-public/proc.c:133-167 | the state after userinit satisfies the invariant |
| CowTheorems.CowRefinesCopying | xv6-public/vm.c:246-382 | over every run each process has the pages, contents and access that copying at fork would give it |
| CowTheorems.LoadsAsIfCopied | xv6-public/vm.c:343-382 | every load in every run returns what it would if fork had copied every page |
| CowTheorems.CountsBoundSharing | xv6-public/vm.c:650-687 | between system calls and faults, in every run, counts bound the mappings despite saturation, count 1 means sole owner, free frames are mapped nowhere |
| CowTheorems.StoreRefused | xv6-public/vm.c:690-766 | a store is refused exactly when a copying kernel refuses it, or a still shared page lies at or above sz, or no frame is free for the copy |
| CowTheorems.SbrkKeepsPages | xv6-public/proc.c:172-188 | sbrk keeps every page below sz present if and only if it is not asked to give back everything |
| CowTheorems.FramesAreNotReclaimed | xv6-public/vm.c:282-307 | shrinking, exiting and reaping leave the free list as it is |
| CowLoads.PagesStayWhole | xv6-public/vm.c:244-382 | in every run each mapped page has the size of a page |
| CowLoads.StoreThenLoad | xv6-public/vm.c:690-766 | after a store that succeeds the storing process loads the byte stored there, and every other load of every process gives what it gave |
| CowLoads.ForkThenLoad | xv6-public/vm.c:343-382 | after a fork that succeeds the child loads what the parent loads, at every address below the size; what the parent could load it still loads, and nobody else's loads change |
| CowLoads.GrowThenLoad | xv6-public/vm.c:244-275 | a load from the pages just gained by sbrk returns 0, and what could be loaded before is loaded as before |
| CowLoads.CopyExact | xv6-public/vm.c:343-382 | copyuvm keeps every count equal to the number of mappings; NPROC processes never reach the saturation at 255 |
| CowLoads.SplitExact | xv6-public/vm.c:724-766 | so does the fault handler, in place or by copying |
| CowLoads.StepExact | xv6-public/vm.c:244-382 | so does every step that takes no mapping away: fork that succeeds, growing sbrk, load and store |
| CowLoads.CountsStayExact | xv6-public/vm.c:650-687 | in every run of such steps each count is the number of entries that map the frame |
| CowLoads.BootExact | xv6-public/proc.c:133-167 | counts are exact after userinit |
| CowLoads.LastSharerStores | xv6-public/vm.c:733-738 | in every such run from boot, the only process left on a frame can store to it with no free frame needed |
| CowFrames.SbrkFrames | xv6-public/proc.c:172-188 | a growing sbrk succeeds exactly when the new size is below KERNBASE and every page can be had, and takes one frame for each; one that runs out of memory keeps every frame it had mapped from coming back |
| CowFrames.CopyRaises | xv6-public/vm.c:343-382 | copyuvm raises by one exactly the counts of the pages it has come to |
| CowFrames.ForkFrames | xv6-public/vm.c:343-382 | fork succeeds exactly when there are page tables for all pages, takes no frame for a page and copies none; the counts it has raised stay raised if it fails |
| CowFrames.StoreFrames | xv6-public/vm.c:724-766 | a store that succeeds takes a frame exactly when its page is read-only and the count of its frame is not 1 |
| CowCode.Machine.constructor | xv6-public/proc.c:133-167 | the machine starts in the given state |
| CowCode.Machine.Kalloc | xv6-public/kalloc.c:80-96 | the first free frame is taken off the list, or none is left |
| CowCode.Machine.KfreeFrame | xv6-public/kalloc.c:57-78 | the frame is filled with junk and put at the front of the list |
| CowCode.Machine.IncCount | xv6-public/vm.c:659-667 | the count becomes the one of the specification, one more up to 255, which `CowLoads.CountsStayExact` ties to the number of mappings |
| CowCode.Machine.DecCount | xv6-public/vm.c:669-678 | the count goes down by one and stops at 0 |
| CowCode.Machine.Deallocuvm | xv6-public/vm.c:277-307 | the loop, skipping 4 MB wherever a page-table page is missing, clears exactly the entries of the range, as the specification does |
| CowCode.Machine.ClearEntry | xv6-public/vm.c:295-304 | one entry is cleared, and its frame freed only at count 0 |
| CowCode.SkipRange | xv6-public/vm.c:293-294 | skipping pages without an entry is clearing them |
| CowCode.Machine.MapZeroed | xv6-public/vm.c:264-272 | one zeroed frame is mapped with count 1 |
| CowCode.Machine.Allocuvm | xv6-public/vm.c:244-275 | the loop maps fresh zeroed pages, and undoes them when memory runs out |
| CowCode.Machine.GrowProc | xv6-public/proc.c:169-188 | the new size and tables are those of the specification, in 32-bit arithmetic |
| CowCode.Machine.MakeShared | xv6-public/vm.c:357-368 | a writable entry becomes read-only and copy-on-write, others keep their flags |
| CowCode.Machine.SharePageOnce | xv6-public/vm.c:353-373 | one round shares one page with the child and raises its count |
| CowCode.Machine.UndoCopy | xv6-public/vm.c:379-381 | after a failure the child is gone and the parent keeps its entries as marked by then |
| CowCode.Machine.Copyuvm | xv6-public/vm.c:343-382 | the loop shares every page below sz with the child and raises its count, or fails part way |
| CowCode.Machine.HandleCowFault | xv6-public/vm.c:689-766 | all checks of the handler, then the entry is opened in place or the page is copied |
| CowRaces.PutWork | xv6-public/vm.c:690-766 | a process that moves on inside the kernel disturbs no other place, entry or list |
| CowRaces.PutFlags | xv6-public/vm.c:357-368 | new flags in one entry keep the invariant when write access goes only to who is alone |
| CowRaces.DropEntry | xv6-public/vm.c:753-753 | an entry that is cleared keeps the invariant |
| CowRaces.AddEntry | xv6-public/vm.c:370-373 | a mapping made before its count is raised keeps the invariant when nobody may write to the frame |
| CowRaces.PutCount | xv6-public/vm.c:650-678 | a count may become any value that covers the counted mappings |
| CowRaceSteps.CountOneAlone | xv6-public/vm.c:724-738 | who reads a count of 1 shares the frame with nobody but processes that have copied it and are about to clear their entry |
| CowRaceSteps.LowerSound | xv6-public/vm.c:750-750 | lowering the count while the entry is still there keeps the invariant |
| CowRaceSteps.OpenSound | xv6-public/vm.c:733-738 | making a frame writable in place keeps the invariant, whatever happened since the count was read |
| CowRaceSteps.MapSound | xv6-public/vm.c:755-755 | mapping the copy before its count is set keeps the invariant |
| CowRaceSteps.ShareSound | xv6-public/vm.c:370-370 | mapping the child's page before the count is raised keeps the invariant |
| CowRaceSteps.CountSound | xv6-public/vm.c:373-373 | raising the count late covers the child's mapping, also at 255 |
| CowRaceSteps.UnmapSound | xv6-public/vm.c:295-304 | clearing a page in any interleaving never frees its frame |
| CowRaceSteps.StepSound | xv6-public/vm.c:244-382 | every single access of fault handler, copyuvm, allocuvm and deallocuvm, in any interleaving, keeps the invariant |
| CowIsolation.StepSeen | xv6-public/vm.c:690-766 | every step changes what processes see as in a kernel where nothing is shared |
| CowIsolation.Isolation | xv6-public/vm.c:343-382 | in every interleaving of faults, forks, sbrk and stores the processes see what they would if fork copied and nothing were shared |
| CowIsolation.PagesArePrivate | xv6-public/vm.c:690-766 | no store, fault or fork of another process changes what a process sees at a page |
| CowIsolation.CountsCoverMappings | xv6-public/vm.c:650-687 | in every interleaving a count covers all mappings but those lowered and not cleared or made and not counted, and a writable page has no other user |
| CowIsolation.BootSound | xv6-public/proc.c:133-167 | the state after userinit satisfies the invariant |
| CowIsolation.WindowRun | xv6-public/vm.c:749-753 | a run in which the count is 1 while two processes map the frame and one may write to it |
| PageTable.WalkKeepsFlat | xv6-public/vm.c:52-71 | walking to an entry, with a new page-table page or not, changes no translation |
| PageTable.SetPteFlat | xv6-public/vm.c:86-88 | writing one entry changes the translation of one page: no page-table page is shared |
| PageTable.AddressSpace.constructor | xv6-public/vm.c:133-142 | an empty directory translates nothing |
| PageTable.AddressSpace.WalkPgdir | xv6-public/vm.c:48-71 | the place of the entry, or 0 exactly when its page is missing and may not or cannot be made |
| PageTable.AddressSpace.MapPage | xv6-public/vm.c:83-88 | one page is mapped, or is mapped already, or has no page-table page to be had |
| PageTable.AddressSpace.MapPages | xv6-public/vm.c:73-96 | the range is mapped page by page to consecutive frames and nothing else changes; on failure a prefix is, and the next page is the obstacle |
| Fs.WordSet | xv6-public/fs.c:385-397 | a word written is read back and all other words of the block are unchanged |
| Fs.FirstFree | xv6-public/fs.c:56-78 | the lowest clear bit, or none at all |
| Fs.AllocPtrOk | xv6-public/fs.c:372-400 | allocating one address of a file keeps ownership, touches no other address and zeroes the block |
| FsFile.BmapOk | xv6-public/fs.c:370-400 | after bmap the block is there, zeroed if new, nothing else changed, and exactly the stated blocks are logged |
| FsFile.BmapThere | xv6-public/fs.c:372-400 | a block that is there is found without any allocation |
| FsFile.WrittenNext | xv6-public/fs.c:494-502 | one round of the write loop extends the written range and nothing else |
| FsFile.WrittenDone | xv6-public/fs.c:479-511 | a finished write is a splice of the contents, and all other files are unchanged |
| FsFile.SpliceRead | xv6-public/fs.c:450-511 | what was written is read back, the rest is as before, and the length grows only when needed |
| FsFile.SpliceTwice | xv6-public/file.c:135-152 | two writes, the second where the first ended, are one write |
| FsFile.StillUsed | xv6-public/fs.c:80-95 | the next block to be freed is still marked used |
| FsFile.TruncateOk | xv6-public/fs.c:402-435 | truncation empties the file, frees exactly its blocks and touches no other file |
| FsFile.ChunkFits | xv6-public/file.c:127-152 | every chunk, at any offset, fits the log budget of one operation |
| FsFile.InLogDone | xv6-public/fs.c:479-511 | the number of distinct blocks a write logs, counting data, bitmap, indirect and inode blocks |
| FsFile.LogIrrelevant | xv6-public/log.c:204-233 | which blocks are logged matters to no file |
| FsFile.RunsKeepOwnership | xv6-public/fs.c:372-435 | in every run of growth, writing and truncation no block has two owners, owned blocks are marked used, and none is metadata |
| FsLog.BmapLogs | xv6-public/fs.c:370-400 | every block and bitmap bit that bmap changes is logged, and only the one inode may change |
| FsLog.CopyLogs | xv6-public/fs.c:494-502 | one round of the write loop logs the block copied into and all that bmap changed |
| FsLog.LoggedNext | xv6-public/fs.c:494-502 | round after round all that changed is logged, and inside the file's size the inode stays as it is |
| FsLog.LoggedSize | xv6-public/fs.c:505-509 | after iupdate the inode is logged whenever it changed |
| FsLog.AllNext | xv6-public/file.c:135-152 | operation after operation, what changed is in some operation's log |
| FsLog.BlocksInOrder | xv6-public/fs.h:39-48 | the bitmap blocks lie one behind the other with BPB bits each, the inode blocks with IPB inodes each |
| FsLog.TruncateLogs | xv6-public/fs.c:402-435 | truncation logs the bitmap block of every block freed and the inode's block |
| FsSpace.FreeNone | xv6-public/fs.c:56-78 | the count of clear bits is 0 exactly on a full disk |
| FsSpace.BmapSpends | xv6-public/fs.c:370-400 | bmap succeeds exactly when the blocks it lacks are free, and takes exactly those |
| FsSpace.BmapGrows | xv6-public/fs.c:370-400 | the same for a range of one block, counted from the file's addresses |
| FsSpace.NeedRest | xv6-public/fs.c:494-502 | what a range lacks is what its first part lacks and what the rest lacks afterwards |
| FsSpace.GrownChunk | xv6-public/file.c:135-152 | chunk after chunk takes what the whole range takes, also when they share a block |
| FsSpace.ReachAll | xv6-public/file.c:127-154 | all bytes fit if and only if the offset is inside the file and the end within MAXFILE blocks |
| FsSpace.ReachStop | xv6-public/file.c:145-148 | the first chunk that does not fit is where the write stops |
| FsCode.FileSystem.AllocBlock | xv6-public/fs.c:41-78 | the scan takes the first clear bit, sets it and zeroes the block, or reports a full disk |
| FsCode.FileSystem.FreeBlock | xv6-public/fs.c:80-95 | the bit is cleared, or was clear already, which is the panic |
| FsCode.FileSystem.EnsureAddr | xv6-public/fs.c:378-387 | an address of the inode is there afterwards, allocated if it was 0 |
| FsCode.FileSystem.EnsureWord | xv6-public/fs.c:388-396 | the same for a word of the indirect block |
| FsCode.FileSystem.MapBlock | xv6-public/fs.c:370-400 | bmap through direct and indirect addresses does what the specification says |
| FsCode.FileSystem.CopyIn | xv6-public/fs.c:494-502 | one round of the write loop is one step of the specification, the block copied into is logged, and so are all blocks and bitmap bits changed |
| FsCode.FileSystem.CopyAll | xv6-public/fs.c:494-502 | the loop writes the whole range within the stated log cost, and panics exactly when fewer blocks are free than the range lacks; all it changes on disk is logged, and the inode changes only if the range goes past the size |
| FsCode.FileSystem.WriteRange | xv6-public/fs.c:494-509 | a range inside the limits is spliced in, or the disk is too full, exactly by the count of free blocks; all that changes, the inode included, is logged |
| FsCode.FileSystem.Writei | xv6-public/fs.c:479-511 | the contents are the old ones with the source spliced in, other files unchanged, -1 exactly when out of range, the panic exactly when too few blocks are free, and the log cost bounded from above; every block, bitmap bit and inode that changes is logged |
| FsCode.FileSystem.WriteChunk | xv6-public/file.c:138-150 | one logged operation writes one chunk, or -1 or the panic under the exact conditions; it logs at most MAXOPBLOCKS blocks, and all blocks, bitmap bits and inodes that it changes |
| FsCode.FileSystem.FileWrite | xv6-public/file.c:116-156 | exactly the whole chunks that fit are written, as one splice and each within budget, and the operations together log all that changes; the result is n if and only if all fit, else -1 with the offset behind what was written; the panic comes exactly when too few blocks are free |
| FsCode.FileSystem.CopyOut | xv6-public/fs.c:468-474 | one round of the read loop returns the bytes of one block and allocates nothing |
| FsCode.FileSystem.CopyOutAll | xv6-public/fs.c:468-474 | the loop returns the requested slice of the contents |
| FsCode.FileSystem.Readi | xv6-public/fs.c:450-476 | the slice clipped to the size, -1 exactly when out of range, and the disk unchanged |
| FsCode.FileSystem.Itrunc | xv6-public/fs.c:402-435 | the file is empty, its blocks are freed once each, other files are unchanged, and the free-block panic does not happen; the bitmap blocks of what is freed and the inode are logged |
| FsCode.FileSystem.FreeDirects | xv6-public/fs.c:414-419 | the first loop frees the direct blocks and clears their addresses |
| FsCode.FileSystem.FreeIndirect | xv6-public/fs.c:421-431 | the second loop frees the blocks named in the indirect block, then that block |
| Umalloc.InsertOk | xv6-public/umalloc.c:33-42 | inserting a block, joined with its neighbours or not, keeps the ring ordered with no two blocks touching |
| Umalloc.InsertUnits | xv6-public/umalloc.c:33-42 | the insertion adds exactly the units of the block |
| Umalloc.InsertClear | xv6-public/umalloc.c:33-42 | joining blocks makes nothing free that was not |
| Umalloc.SpotFits | xv6-public/umalloc.c:30-32 | every live block lies between the free block before it and the one behind |
| Umalloc.FreeInv | xv6-public/umalloc.c:24-44 | freeing a live block keeps the heap invariant |
| Umalloc.CoreInv | xv6-public/umalloc.c:46-61 | memory from sbrk enters the heap as one more block and keeps the invariant |
| Umalloc.TakeInv | xv6-public/umalloc.c:75-84 | handing out a block or the tail of one gives an address nobody holds and keeps the invariant |
| UmallocRuns.SizesHold | xv6-public/umalloc.c:46-69 | size and sbrk argument are right if and only if the request is at most 2^31 - 16 bytes |
| UmallocRuns.AsksEnough | xv6-public/umalloc.c:46-53 | for requests up to 2^31 - 16 bytes sbrk is asked for 4096 units at least, always for enough, and beyond 4096 units for less than a unit too much |
| UmallocRuns.AskedShort | xv6-public/umalloc.c:46-55 | sbrk is never asked for more than the units meant |
| UmallocRuns.ListedIff | xv6-public/umalloc.c:46-61 | after morecore the units listed and handed out are covered by memory obtained if and only if sbrk was asked for the size meant |
| UmallocRuns.WrongSizeRun | xv6-public/umalloc.c:46-90 | a run in which malloc of 2^32 - 16 bytes succeeds while sbrk gives 8 bytes back |
| UmallocRuns.FitIsFirst | xv6-public/umalloc.c:74-89 | every block passed before the one found is too small |
| UmallocRuns.FitMissesNone | xv6-public/umalloc.c:74-89 | one trip round the ring misses no block |
| UmallocRuns.MorecoreFits | xv6-public/umalloc.c:46-61 | after morecore some block is large enough, joined to its predecessor or not |
| UmallocRuns.MallocGood | xv6-public/umalloc.c:63-90 | the reply is a block of the size asked for that nobody holds; malloc fails exactly when nothing fits and sbrk refuses |
| UmallocRuns.MallocWhere | xv6-public/umalloc.c:74-84 | the reply is the end of the first block that fits, with the ring left at the block before it, or else the end of what sbrk grants |
| UmallocRuns.PhaseMissed | xv6-public/umalloc.c:86-88 | the search comes round without success at most once |
| UmallocRuns.Exec | xv6-public/umalloc.c:24-90 | the heap invariant holds after every run of malloc and free |
| UmallocRuns.BlocksStayApart | xv6-public/umalloc.c:24-90 | in every run live and free blocks are disjoint, free blocks ordered and never touching, and no unit is lost |
| UmallocRuns.GivenBackMerges | xv6-public/umalloc.c:24-44 | when everything has been given back the free list is one block with all memory ever obtained |
| UmallocCode.StopsAtSpot | xv6-public/umalloc.c:30-32 | the two exit tests of the search hold exactly at the block before the freed one |
| UmallocCode.LinkedInsert | xv6-public/umalloc.c:33-42 | the four ways of rewiring leave the headers linked as the ring with the block in it |
| UmallocCode.UserHeap.constructor | xv6-public/umalloc.c:21-22 | the heap starts empty, with no ring yet |
| UmallocCode.UserHeap.FindSpot | xv6-public/umalloc.c:30-32 | from any freep the search ends at the block before the freed one after exactly the steps that lie between, fewer than the ring has blocks |
| UmallocCode.UserHeap.Rewire | xv6-public/umalloc.c:33-42 | the field updates change no header but the two involved |
| UmallocCode.UserHeap.Free | xv6-public/umalloc.c:24-44 | the headers after free are the ring of the specification |
| UmallocCode.UserHeap.Morecore | xv6-public/umalloc.c:46-61 | the granted memory goes through free, or nothing changes |
| UmallocCode.UserHeap.HandOut | xv6-public/umalloc.c:75-84 | unlinking or cutting leaves the ring of the specification and returns the tail's address |
| UmallocCode.UserHeap.Start | xv6-public/umalloc.c:70-73 | the first call links the static header to itself |
| UmallocCode.UserHeap.Found | xv6-public/umalloc.c:75-84 | a block that fits is handed out and the answer is that of the specification |
| UmallocCode.UserHeap.GetCore | xv6-public/umalloc.c:86-88 | a search that comes round asks for core once and goes on, or gives up with 0 |
| UmallocCode.UserHeap.Malloc | xv6-public/umalloc.c:63-90 | the loop asks for core at most once, looks at each block at most once before and once after, and answers as the first-fit specification |
| Pipe.WrapKeepsPlace | xv6-public/pipe.c:93-116 | a byte's cell is the same before and after its counter wraps |
| Pipe.EmptyIff | xv6-public/pipe.c:106-114 | equal counters mean that everything accepted was delivered |
| Pipe.FullIff | xv6-public/pipe.c:85-85 | the full test means PIPESIZE bytes are on their way |
| Pipe.PutCarries | xv6-public/pipe.c:93-93 | a byte put into a pipe that is not full is the next one accepted, and disturbs none on the way |
| Pipe.SkipCarries | xv6-public/pipe.c:116-116 | a byte taken from a pipe that is not empty is the oldest one on the way |
| PipeRuns.ActFine | xv6-public/pipe.c:60-121 | every step of a process keeps the shared state sound and its own knowledge true; what a call does in all its turns is in `PipeCalls.CallsInRun` |
| PipeRuns.OtherLocal | xv6-public/pipe.c:78-121 | what the lock's holder does affects nobody without the lock |
| PipeRuns.StepInv | xv6-public/pipe.c:60-121 | every step of any interleaving keeps the invariant, kills included |
| PipeCalls.ActPuts | xv6-public/pipe.c:78-98 | a step of a write call adds to the pipe exactly the next bytes of its buffer that it then counts, also after it slept |
| PipeCalls.ActTakes | xv6-public/pipe.c:100-121 | a step of a read call takes out exactly the bytes that it copies |
| PipeCalls.CallsInRun | xv6-public/pipe.c:78-121 | in every run, with or without both locks, all turns of a write call together have put in exactly the part of its buffer counted, in order and each byte once, and a read call has taken out exactly what it copied |
| PipeCalls.HistoryIsAll | xv6-public/pipe.c:78-121 | the history of who put in each byte holds all bytes accepted, in order, and that of who took each out all bytes delivered |
| PipeCalls.WriteCall | xv6-public/pipe.c:78-98 | a write call that is done has put in its whole buffer |
| PipeCalls.ReadCall | xv6-public/pipe.c:100-121 | a read call that is done returns what it took out, short only if the pipe is empty and with nothing only if moreover the write end is closed |
| PipeTheorems.Exec | xv6-public/pipe.c:60-121 | the invariant holds after every run |
| PipeTheorems.FirstInFirstOut | xv6-public/pipe.c:78-121 | in every interleaving delivered bytes are a prefix of accepted ones, at most PIPESIZE apart, and a read returns them in one piece |
| PipeTheorems.RunTrail | xv6-public/pipe.c:60-121 | the states of a run are such a run for the theorems about calls |
| PipeTheorems.WriteCall | xv6-public/pipe.c:78-98 | in every run the bytes of one write call in the pipe are, all its turns together, the part of its buffer counted, in order and each once; when it is done, the whole buffer |
| PipeTheorems.EndsClose | xv6-public/pipe.c:59-75 | in every run an end is open exactly while a descriptor refers to it or the close of the last one has not yet had the lock |
| PipeTheorems.ActSleeps | xv6-public/pipe.c:85-111 | who goes to sleep does so on a condition that holds |
| PipeTheorems.StepAwake | xv6-public/pipe.c:84-95 | a step loses a wakeup if and only if a killed writer leaves a full pipe to a sleeping reader |
| PipeTheorems.NoLostWakeup | xv6-public/pipe.c:59-121 | in every run without such a step nobody sleeps on a condition that is gone unless the wakeup is on its way |
| PipeTheorems.NoKillsNoneAbandoned | xv6-public/pipe.c:86-89 | a run without killed processes has no such step |
| PipeTheorems.NeverBothAsleep | xv6-public/pipe.c:78-121 | without kills and with the lock free, a reader and a writer never both sleep |
| PipeTheorems.OwedIsPaid | xv6-public/pipe.c:78-121 | in every run the holder that owes a wakeup can run, and each step pays it or brings it nearer, but for the step on which a killed writer abandons a full pipe |
| PipeTheorems.KilledWriterLosesWakeup | xv6-public/pipe.c:86-89 | a run in which a killed writer leaves a full pipe and a sleeping reader behind |
| PipeLocks.ReleaseStep | xv6-public/proc.c:480-483 | releasing the pipe's lock under ptable.lock is the point at which the process sleeps, though its state says so only later |
| PipeLocks.WakeStep | xv6-public/proc.c:515-517 | taking ptable.lock is the point at which a wakeup happens |
| PipeLocks.ScanStep | xv6-public/proc.c:508-510 | looking at one slot of the table changes nothing that was not decided when the lock was taken |
| PipeLocks.QuietStep | xv6-public/proc.c:484-497 | marking, yielding and coming back change nothing others rely on |
| PipeLocks.KillStep | xv6-public/proc.c:525-543 | kill between the stages of a sleep does what it does to a sleeper |
| PipeLocks.BootSane | xv6-public/pipe.c:33-36 | a new pipe stands for a new pipe |
| PipeLocks.StepRefines | xv6-public/proc.c:461-543 | every step of the machine with both locks is a step of the machine with atomic sleep and wakeup, or none |
| PipeSleep.RunRefines | xv6-public/proc.c:461-543 | every run with both locks stands for a run with atomic sleep and wakeup, with no more kills and no more abandoned pipes |
| PipeSleep.AbandonShows | xv6-public/pipe.c:86-89 | the step that abandons a full pipe is never hidden by the stages of sleep and wakeup |
| PipeSleep.StepAwake | xv6-public/proc.c:461-520 | with both locks too a step loses a wakeup if and only if a killed writer abandons a full pipe |
| PipeSleep.NoLostWakeup | xv6-public/proc.c:461-520 | in every run with both locks and no such step, whoever is marked asleep or on the way to it has a condition that holds or a wakeup on its way |
| PipeSleep.NeverBothAsleep | xv6-public/proc.c:461-520 | with both locks free and no kills, a reader and a writer are never both marked asleep |
| PipeSleep.FirstInFirstOut | xv6-public/pipe.c:78-121 | with both locks too, delivered bytes are a prefix of accepted ones, at most PIPESIZE apart |
| PipeSleep.RunTrail | xv6-public/proc.c:461-520 | the states of a run with both locks are such a run too |
| PipeSleep.WholeCalls | xv6-public/pipe.c:78-121 | with both locks too, a write call that is done has put in its whole buffer however often it slept, and a read call that is done returns what it alone took out, short only when the pipe is empty and with nothing only at the end of the file |
| PipeSleep.EndsClose | xv6-public/pipe.c:59-75 | the same with both locks |
| PipeSleep.TableIsFreed | xv6-public/proc.c:503-520 | whoever holds ptable.lock can run and gets nearer to releasing it with every step |
| PipeSleep.OwedIsPaid | xv6-public/pipe.c:78-121 | in every run with both locks the holder that owes a wakeup runs and pays or comes nearer, or waits for ptable.lock, whose holder runs, comes nearer to giving it up and leaves the debt alone; only a killed writer abandoning a full pipe is excepted |
| PipeSleep.OtherOrderLoses | xv6-public/proc.c:480-483 | were the pipe's lock released before ptable.lock is taken, a reader could sleep for ever beside a byte, with no kill |
| PipeCode.WriteTurn | xv6-public/pipe.c:84-94 | a turn of the code's write loop is a sequence of steps of the machine |
| PipeCode.ReadTurn | xv6-public/pipe.c:113-117 | a turn of the code's read loop is a sequence of steps of the machine |
| PipeCode.ScanIsLoop | xv6-public/proc.c:508-510 | the loop of wakeup1 is the machine's scan, slot by slot |
| PipeCode.ProcTable.constructor | xv6-public/proc.c:88-115 | a table of runnable processes with the given pids |
| PipeCode.ProcTable.Wakeup1 | xv6-public/proc.c:500-511 | the loop wakes every sleeper on the channel and nobody else |
| PipeCode.ProcTable.MarkSleeping | xv6-public/proc.c:484-486 | the two assignments under ptable.lock are the machine's step, and nobody else changes |
| PipeCode.ProcTable.Kill | xv6-public/proc.c:522-543 | the first process with that pid is marked killed and runnable whatever it waits for, or -1 when there is none |
| PipeCode.PipeBuffer.constructor | xv6-public/pipe.c:33-36 | a new pipe is empty |
| PipeCode.PipeBuffer.PutByte | xv6-public/pipe.c:93-93 | one byte goes in at the write counter |
| PipeCode.PipeBuffer.PutSome | xv6-public/pipe.c:84-94 | bytes go in, in order, until the pipe is full or all are in |
| PipeCode.PipeBuffer.GetByte | xv6-public/pipe.c:116-116 | the oldest byte comes out |
| PipeCode.PipeBuffer.GetSome | xv6-public/pipe.c:113-117 | as many bytes as are there and wanted come out, oldest first |
| Wmap.AcceptedIff | xv6-public/sysproc.c:112-123 | a request passes the checks if and only if it lies in the window or its end wraps past 2^32 |
| Wmap.ShareByteIff | xv6-public/sysproc.c:112-123 | when two accepted requests have a byte in common, modulo 2^32 |
| Wmap.OverlapTestIff | xv6-public/vm.c:440-449 | the overlap test finds common bytes if and only if both start below 2^31, or one wraps and does not reach the other's start |
| Wmap.ByteTestIsPageTest | xv6-public/vm.c:440-449 | in the window the overlap test in bytes decides exactly whether pages are shared |
| Wmap.FirstFree | xv6-public/vm.c:795-800 | the first free slot, or none |
| Wmap.WmapCoherent | xv6-public/vm.c:773-814 | in the window wmap refuses exactly when a page is taken or no slot is left, a wrapping mapping exactly when no slot is left, and the table stays coherent |
| Wmap.WmapRecords | xv6-public/vm.c:773-814 | on success one slot that was free holds the address and length asked for and no loaded page, and nothing else has changed |
| Wmap.WmapAnswers | xv6-public/trap.c:66-86 | after wmap a fault at any byte of the mapping loads its page, but for the last page of the window, which kills |
| Wmap.FaultKeepsMappings | xv6-public/trap.c:66-86 | a fault that loads a page changes no mapping and the counter of one |
| Wmap.WunmapDropsOne | xv6-public/vm.c:817-845 | wunmap of an address where a mapping starts frees that slot and its pages and changes no other slot |
| Wmap.WunmapRefusesIff | xv6-public/vm.c:817-845 | wunmap fails exactly when there are mappings and none starts at the address |
| Wmap.FaultCoherent | xv6-public/trap.c:66-86 | a fault is answered exactly inside a live mapping, and loads one page and counts it |
| Wmap.UnmapPages | xv6-public/vm.c:562-601 | trusting the loaded-page counter removes exactly the mapping's pages |
| Wmap.UnmapCoherent | xv6-public/vm.c:562-601 | unmapping keeps the table coherent |
| Wmap.WunmapCoherent | xv6-public/vm.c:817-845 | after wunmap no page of the mapping is present, all others are, and nothing starts there |
| WmapFork.ForkCoherent | xv6-public/vm.c:605-646 | copyWmap with nothing in between gives a new child the parent's mappings, counters and exactly its present pages, or runs out of memory |
| WmapFork.CopyPagesIff | xv6-public/vm.c:624-637 | the pages of a range are copied if and only if none is in the child already and the page-table pages that are missing can be had; then exactly those pages are added |
| WmapFork.CopySlotIff | xv6-public/vm.c:612-644 | the same for a slot, one that wraps having no pages; the panic and the failure have their causes |
| WmapFork.CopiedIff | xv6-public/vm.c:605-646 | a copied slot leaves the child's table right but for the total if and only if no other mapping of the child meets it and the slot it overwrites has no page loaded, and coherent if and only if the parent's total then counts the child's live slots |
| WmapFork.HalfCopy | xv6-public/vm.c:612-644 | for a child that waits the next slot is always welcome, and only memory can be in the way |
| WmapFork.HalfTouch | xv6-public/trap.c:66-86 | a child that loads pages between two slots does not disturb the copy |
| WmapFork.HalfDone | xv6-public/vm.c:605-646 | a child that has waited ends with the parent's mappings, all its pages and a coherent table |
| WmapRuns.ExitClears | xv6-public/proc.c:265-273 | the exit loop leaves no mapping and no page of the window |
| WmapRuns.StepGood | xv6-public/vm.c:440-845 | every step of processes and of copies in progress keeps all tables coherent, those of children in the making half done, if children wait |
| WmapRuns.TablesStayCoherent | xv6-public/vm.c:440-845 | in every run in which children call nothing before they have their mappings, all other tables stay coherent and the window's last page is never present |
| WmapRuns.ForkGivesAll | xv6-public/proc.c:231-247 | in the same runs a child whose copy is through has the parent's mappings in the same slots and all the parent's pages |
| WmapRaces.MapTidy | xv6-public/sysproc.c:96-127 | wmap keeps a table right but for the total, whatever the total says |
| WmapRaces.UnmapTidy | xv6-public/vm.c:817-845 | so does wunmap |
| WmapRaces.ExitTidy | xv6-public/proc.c:265-273 | and the loop of exit |
| WmapRaces.StepTidyIff | xv6-public/proc.c:231-247 | a step of any process leaves all tables right but for totals if and only if it is not the copy of a slot that is in the way of the child's own |
| WmapRaces.TidyIff | xv6-public/proc.c:231-247 | over all runs, children waiting or not, tables stay right but for totals if and only if every slot copied is welcome when it comes |
| WmapRaces.EarlyMapRun | xv6-public/proc.c:231-247 | a run in which a child that maps early ends with two slots on one page and a total of 1 |
| WmapRuns.SlotsShareNoPage | xv6-public/vm.c:773-814 | in the same runs two slots share no page of the window, each counter counts its present pages, and the total the live slots once all mappings are there |
| WmapRuns.UnmappedIsGone | xv6-public/vm.c:562-601 | in the same runs wunmap of a mapping in the window succeeds and leaves none of its pages present |
| WmapRuns.SlotsShareByteIff | xv6-public/vm.c:773-814 | in the same runs two live slots have a byte in common if and only if both wrap or one wraps into the other |
| WmapRuns.WrappedStays | xv6-public/sysproc.c:129-141 | wunmap refuses a wrapped mapping, and no fault in the window finds it |
| WmapRuns.WrappedMappingTwice | xv6-public/vm.c:440-449 | a mapping whose end wraps is accepted twice at the same address |
| WmapRuns.LastPageKills | xv6-public/vm.c:512-515 | a fault in the window's last page kills the process exactly when a mapping has the byte |
| WmapCode.Process.constructor | xv6-public/proc.c:117-126 | a new process has no mapping |
| WmapCode.Process.Update | xv6-public/vm.c:453-466 | the slot and the total are set, or nothing when the index is out of range |
| WmapCode.Process.Wmap | xv6-public/vm.c:773-814 | the loop answers and changes the table as the specification says, which by `Wmap.WmapRecords` is to record the mapping asked for |
| WmapCode.Process.SysWmap | xv6-public/sysproc.c:96-127 | the checks pass exactly the accepted requests, and the table stays coherent |
| WmapCode.Process.SysWunmap | xv6-public/sysproc.c:129-141 | an address outside the window is refused, else the mapping is taken down as specified |
| WmapCode.Process.Touch | xv6-public/trap.c:66-86 | the search and the load do what the specification of a fault says |
| WmapCode.Process.LoadPage | xv6-public/vm.c:507-557 | one page is mapped and counted, or refused at the window's end |
| WmapCode.Process.ClearPages | xv6-public/vm.c:570-592 | the loop that skips missing page-table pages removes exactly the pages of the range |
| WmapCode.Process.DropAt | xv6-public/vm.c:562-601 | pages and slot are released as the specification says |
| WmapCode.Process.Wunmap | xv6-public/vm.c:817-845 | the loop answers and changes the table as the specification says |
| WmapCode.Process.UnmapAll | xv6-public/proc.c:265-273 | afterwards the table is empty and no page of the window is present |
| WmapCode.Process.CopyRange | xv6-public/vm.c:624-637 | the loop gives the child the present pages of the mapping, or ends in failure or panic, as specified |
| WmapCode.Process.MapOne | xv6-public/vm.c:633-636 | one page is mapped in the child, or there is no page-table page to be had, or it is there already, which is the panic |
| WmapCode.Process.CopyAt | xv6-public/vm.c:612-644 | one slot goes over, pages first, then the entry and the parent's total |
| WmapCode.Process.CopyWmap | xv6-public/vm.c:605-646 | the nested loops do to the child's table, whatever it holds, what the specification says, failure included |
| Grep.EndBegins | xv6-public/grep.c:91-92 | a final $ matches exactly at the end of the text |
| Grep.ConsBegins | xv6-public/grep.c:84-106 | a text begins with a pattern exactly when a prefix fits the first item and the rest begins with the rest |
| Grep.OneBegins | xv6-public/grep.c:93-94 | a literal or '.' consumes exactly one fitting character |
| Grep.MatchHere | xv6-public/grep.c:84-96 | true exactly when a prefix of the text is in the language of the pattern |
| Grep.MatchStar | xv6-public/grep.c:98-106 | true exactly when the text begins with a run of the character and then the pattern |
| Grep.Match | xv6-public/grep.c:72-82 | true exactly when a substring, or a prefix after '^', is in the language of the pattern |

## Left out

- Hardware effects: CR3 loads, TLB flushes, segments, context switches and trap entry; each process translates through its own table.
- In the copy-on-write part page tables are the flat maps that `PageTable` shows two-level tables to stand for, and whether a page-table page can be had is a parameter of the operations.
- Torn block writes: a `bwrite` is atomic, as `log.c` assumes.
- `exec`, ELF loading, `loaduvm`, `copyout` and the user code itself.
- Device drivers, the console, boot code and the interrupt path of the disk.
- Directories, path lookup, link counts, device inodes and the encoding of inodes and of bitmap bits on disk.
- Out-of-memory and file-error paths of `allocateAndMap` and `dellocateAndUnmap`, write-back to files, the duplicated descriptors, and which process frees the frames of a mapping shared by `fork`.
- The copy of one slot by `copyWmap` is one step of the machine; between its pages a child that waits can only fault on a page that has no mapping yet.
- The user memory below `sz` is taken not to reach the mapping window, which starts above all physical memory.
- The spinlocks and sleep locks themselves; in all machines a lock is held by one process at a time, and the log's machine treats each section under `log.lock` as one step.
- Starvation: which process the scheduler picks; `OwedIsPaid` says what happens when the holder runs.
- Freeing the pipe's page once both ends are closed; no process is inside it then.
- LogCode.Journal.EndOp: is stated for a state in which the log on disk is empty, as it is whenever no commit runs.
- FsCode.FileSystem.FileWrite: is stated for MAXOPBLOCKS of at least 6; below that the chunk size is 0 and the loop makes no progress.
- UmallocCode.UserHeap.Free: is stated for an address that `malloc` returned and that has not been freed.
- UmallocCode.UserHeap.Malloc: is stated for the case that `sbrk` refuses, or grants core when it was asked for the size meant, which `SizesHold` shows to be all requests of up to 2^31 - 16 bytes, and for programs that never move the end of the process down with `sbrk`; what a grant of the wrong size does is in `ListedIff` and `WrongSizeRun`.
- LogOverflow.ReservationIff: is stated for LOGSIZE a multiple of MAXOPBLOCKS, as `param.h` defines it.
- LogOverflow.CrashSafetyIff: is stated for LOGSIZE a multiple of MAXOPBLOCKS with room for at least two operations, as `param.h` defines it; with a single operation there is nobody to race with.
- LogTheorems.CrashSafety: is stated for runs in which appends find room in the log area; `InBudgetIsRoomy` and `CrashSafetyIff` say which those are.
- LogTheorems.ReadsAreCurrent: is stated for the same runs.
- LogRuns.StepInv: is stated for an append that finds room in the log area; one that does not is `OverflowRun`.
- LogRuns.ExecInv: is stated for the same runs as `CrashSafety`.
- LogCode.Journal.LogAppend: is stated for a header with room for a new block; beyond LOGSIZE the code writes behind `lh.block`.
- LogTheorems.AllOrNothing: "every run" ends where recovery meets a header that names more blocks than the log area holds, after an overflow; the code would go on and install what lies behind the area. The header in memory is unbounded, so that an operation beyond its budget only makes it longer, where the code writes behind `lh.block`.
- LogTheorems.OrderlyExec: the same.
- LogTheorems.CommitIsQuiet: the same.
- PipeTheorems.OwedIsPaid: takes `sleep` and `wakeup` as single steps; `PipeSleep.OwedIsPaid` states it with both locks.
- CowTheorems.CountsBoundSharing: takes the fault handler as one step; inside it, between `dec_count` and clearing the entry, the count can be below the mappings, which `CowIsolation.CountsCoverMappings` states exactly.
- CowIsolation.Isolation: does not model access bits, `sz` and the failures of `mappages` outside `fork`, which are in `CowRuns`; `exit` is no event because it changes no page and no count of a user frame (`CowRuns.ExitRefines`).
- PageTable.AddressSpace.MapPages: is stated for non-empty ranges that end by 2^32, as all callers give.
- WmapCode.Process.LoadPage: does not model failures of `kalloc`, `mappages` and the file read of `allocateAndMap`, which kill the process.
- PipeCode.PipeBuffer.PutSome: models one turn at the lock; sleeping and waking between turns is in the machine of `PipeRuns`.
- `sh.c`, `mkfs.c` and the test programs.
