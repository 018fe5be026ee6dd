# A verified model of CRIU's algorithms and restore protocols

CRIU checkpoints and restores Linux processes. Most of it drives system calls, but
several parts are algorithms or protocols between threads and processes. This project
models those parts in Dafny and proves what they promise, for every input, every
interleaving and every answer of the kernel that the model allows.

`dafny verify dfyconfig.toml` checks the whole project. Nothing here runs CRIU.

## What is modelled

**Parallel decompression of pages** (`criu/compression.c`).
`JobQueue` is the queue of decode jobs, with each atomic load, fetch-and-add,
compare-and-swap and store as one step. `DecompressionPool` adds the persistent workers,
generations, the pending count and both condition variables. `SharedBudget` is the
restore-wide budget of CPU and batch slots taken by compare-and-swap. `EncodedRead` is
the loop that decodes blocks into the iovecs of a request, inline or through jobs, over
a memory that counts the writes to each byte; what the pool tells it is what some run of
`DecompressionPool` reports. `Prefetch` is the read-ahead with its two swapped buffers, and
`EncodedQueue` puts a queue of reads together from both. `QueueProgress`, `PoolProgress` and
`BudgetProgress` bound the steps of the queue, the pool and the budget; `PoolBatches` says how
a batch is shared out among the workers, and `BudgetGrants` what the budget grants.

**Protocols between restored processes** (`criu/files.c`, `criu/cr-restore.c`).
`FdDistribution` is the distribution of descriptors by messages and an event bit, with
open methods in phases that wait for other files in the same task or in others and that
send files to each other. `FdTableBarrier` is the barrier around a shared descriptor table.
`RestoreStages` is the restore stages on two futexes, with the deaths of zombies and helpers
that their parents wait for and the zombies that the root task collects once they are
reparented to it. `FdProgress`, `StageProgress` and `StageEnd` prove that these protocols go
on and end, or when they do not, and `FdOrder` that descriptors are restored in the order that
their open methods wait for. `VmaHint` is the search for a gap for the restorer.

**Buffered I/O** (`criu/bfd.c`). `BufferedRead` and `BufferedWrite` refine a plain byte
stream, with buffers, growth, partial writes and I/O errors. `Iovecs` has the vectors of
memory ranges that they share with `EncodedRead`.

**Identity of kernel objects** (`criu/kcmp-ids.c`, `criu/file-ids.c`). `KcmpIds` is the
tree of trees ordered by genid and by sys_kcmp, `FileIds` the users of its counter.

**Smaller algorithms**. `CgroupTree` and `CgroupRestore` (`criu/cgroup.c`) sort cgroup
paths into a tree, dump it and rebuild the paths; `GhostChunks` and `ParentDirs`
(`criu/files-reg.c`) copy sparse files and make and remove parent directories; `Bitmap`
(`criu/bitmap.c`) and `EpollOffsets` (`criu/eventpoll.c`).

A protocol is a `State`, the steps between states and runs as sequences of states; its
theorems hold in every state of every run. Objects that the source updates in place are
classes, buffers are arrays, and their methods are proved against functions of the old
state. Calls into the kernel are parameters: functions or sequences that give the answer
of each call, over which every theorem quantifies.

## Where the code does not do what one might expect

- Unbuffered `bwritev` writes all data but reports an error when the last iovec is empty
  (`BufferedWrite.TrailingEmptyEntry`). `BufferedWrite.WriteVector` proves that with
  calls that always make progress it succeeds exactly when the last iovec is not empty
  or there is none.
- `breadchr` also fails on a last piece without delimiter that fills the largest buffer
  exactly, while one byte less is read (`BufferedRead.FullBufferRefused`).
  `BufferedRead.ReadPieces` proves the exact limit.
- The test that keeps device files from reusing a cached ID compares mode bits that
  directories, symbolic links and sockets have too, although its comment speaks of
  devices: `FileIds.OnlyRegularAndFifoReused`.
- File IDs are 32 bits of a wider counter, and special files take them without the
  overflow check of the tree. With the counter at 2^32 a special file gets ID 0 and the
  next one an ID that is in use (`FileIds.WrapAround`). `FileIds.FdIds.GenerateSpecial`
  and `FileIds.FdIds.Generate` prove that a new ID is non-zero and unused exactly while
  the counter is below 2^32, and `FileIds.IdsDistinctUntilWrap` that all new IDs of a
  dump are exactly when there are fewer than 2^32.
- `make_parent_dirs_if_need` can leave a terminator in the caller's path
  (`ParentDirs.FailureCutsPath`). `ParentDirs.MakeParentDirs` proves that it does exactly
  when the outermost parent that can be neither found nor made is not the last one.
- `restorer_get_vma_hint` can return a range beyond the task size (`VmaHint.BothBeyond`).
  `VmaHint.WithinExactly` proves that it never does exactly when no address from the task
  size on is unmapped in both lists with a mapping above it in both. One list within the
  task size is enough for that (`VmaHint.OneWithin`) but not needed
  (`VmaHint.BeyondWithoutGap`).
- `read_all` can fail after it has consumed bytes, and `bfd` then loses them
  (`BufferedRead.FailedRefillLoses`). `BufferedRead.Bfd.Refill` proves how many, and that the
  stream is kept exactly when there were none.
- Below a cgroup directory "/" the rebuilt paths start with two slashes
  (`CgroupRestore.TwoSlashesBelowRoot`, and `CgroupRestore.RebuildDump` for all paths).
- On an image that ends inside a chunk, `copy_chunk_to_file` repeats an empty transfer for
  ever (`GhostChunks.TruncatedNeverEnds`). `GhostChunks.Target.CopyIn` proves for every
  history of transfers whether the call is through, has failed or still runs.
- A restore can stall. The root task waits for each zombie of a dying task; while that is
  not reparented to it, it waits for `nr_in_progress` to change, but the dying task does not
  change it. `StageEnd.StallsExactly` proves that a run can end like that if and only if
  some zombie hangs by dying tasks from a zombie child of the root task, and
  `StageProgress.DeadSessionCanStall` is the tree of a dead session that does.

## Model

| member | source | states |
|---|---|---|
| `JobQueue.StepInv` | criu/compression.c:411-512 | every atomic step of every participant keeps the queue invariant: chunks are claimed in order and by one participant each, a claimed chunk is run up to its own first failure, and the recorded block is the lowest recorded failure |
| `JobQueue.FirstFailureRan` | criu/compression.c:462-512 | once all participants have stopped, the lowest failing job has been run and recorded, whoever failed elsewhere first |
| `JobQueue.DrainedOutcome` | criu/compression.c:430-512 | a drained queue reports a failure exactly when some job fails, and then the block of the lowest failing job; without failure every job ran exactly once |
| `JobQueue.RunSerial` | criu/compression.c:514-525 | the serial run reports the same outcome, which is the reference for the pooled one, and runs exactly the jobs up to the first that fails, in order |
| `JobQueue.ChunkSize` | criu/compression.c:430-450 | a claim is of 1 to 8 jobs: the most that leave four claims for each participant |
| `QueueProgress.StepWork` | criu/compression.c:411-512 | every atomic step of every participant, also a failing compare-and-swap, leaves less to do, so that a queue is drained after a bounded number of steps |
| `DecompressionPool.RunInv` | criu/compression.c:571-622 | the pool invariant holds in every state of every run, for any number of workers, batches, interleavings and spurious wake-ups |
| `DecompressionPool.BatchesMatchSerial` | criu/compression.c:769-824 | every batch ever reported has the outcome of the serial run of its jobs, ran no job twice and without failure each once, and every batch but the current one has been reported |
| `DecompressionPool.PoolSafety` | criu/compression.c:735-824 | no BUG_ON fires, the pending count is the number of selected workers that have not reported, and nobody can reach the jobs once the finish step has returned |
| `DecompressionPool.SelectedRunOnce` | criu/compression.c:571-622 | no worker runs a generation twice; of every finished generation exactly the workers selected for it have run it, and of the current one none that is not selected, and all that are before the batch is finished |
| `PoolBatches.StartSelects` | criu/compression.c:769-791 | a batch started for so many threads is run by exactly the first workers, one less than the threads, and its report is about its jobs |
| `PoolBatches.ChunksClaimedWhole` | criu/compression.c:462-493 | in every active batch jobs are claimed in whole chunks, each by one participant |
| `PoolBatches.FailureStopsClaims` | criu/compression.c:462-512 | with the failure flag up no step of a participant adds to what is or can still be claimed |
| `PoolBatches.FewClaimsAfterFailure` | criu/compression.c:462-512 | after a failure no more jobs of the batch are claimed than one chunk for each participant that is past its test of the flag |
| `DecompressionPool.NeverStuck` | criu/compression.c:571-622 | no wake-up is lost: while a batch is active or a stopping pool has workers left, somebody can step without a spurious wake-up |
| `PoolProgress.StepWork` | criu/compression.c:571-824 | every step of the caller or a worker that neither begins something nor is a spurious wake-up leaves less to do |
| `PoolProgress.BatchEnds` | criu/compression.c:769-824 | a batch takes at most a number of steps given by its jobs and workers, and two for every spurious wake-up, and until then somebody can take another one |
| `PoolProgress.GoesOnToReport` | criu/compression.c:769-824 | every run with an active batch can be continued to the report of that batch |
| `PoolProgress.SomeRunReports` | criu/compression.c:769-824 | for every list of jobs and every number of workers some run reports a batch of exactly these jobs |
| `SharedBudget.RunInv` | criu/compression.c:144-224 | the lease discipline and the absence of lost wake-ups hold in every reachable state of any number of threads |
| `SharedBudget.SlotsConserved` | criu/compression.c:144-203 | free and held slots of both counters add up to the capacity, decoding participants never exceed the CPU capacity, which is the parallel setting or the number of CPUs, and a thread between requests or idle has given back what it took |
| `SharedBudget.ThreadLimit` | criu/compression.c:83-90 | the automatic setting and one beyond the CPUs give the CPUs, any other the number asked for, and without CPUs one |
| `SharedBudget.Capacity` | criu/compression.c:97-109 | the capacity is the CPUs for automatic, serial and too large settings, and else the setting |
| `SharedBudget.NeverDeadlocked` | criu/compression.c:826-945 | while any thread has an active read, one that has can step without a timeout and without asking for more |
| `BudgetGrants.GrantedInFull` | criu/compression.c:144-160 | whoever asks gets exactly what it asked for or all there is, and the counter goes down by exactly that, however often it was disturbed, retried or slept |
| `BudgetGrants.ThreadsGranted` | criu/compression.c:183-189 | a batch that asks for CPU slots gets as many as it asked for, or none are left |
| `BudgetGrants.BatchGranted` | criu/compression.c:205-210 | the lease of a batch is one slot |
| `BudgetGrants.PoolWidth` | criu/compression.c:862-884 | a batch decodes with as many participants as slots were granted and the pool has, and keeps exactly these slots |
| `BudgetGrants.PrefetchGranted` | criu/compression.c:162-175 | a prefetch lease is refused only when there is none |
| `BudgetProgress.StepWork` | criu/compression.c:144-224 | every step that neither asks for something nor is a timeout leaves less to do: whoever changes a counter pays for the retries of the others |
| `BudgetProgress.EveryReadEnds` | criu/compression.c:826-945 | a run has no more steps than its requests and timeouts account for, and ends with all threads idle and all slots free or in a state where somebody can go on without asking for more |
| `EncodedRead.SkipUsed` | criu/compression.c:1325-1328 | stepping over used-up and empty iovecs keeps the position, and stops at the end exactly when the destination is used up |
| `EncodedRead.Transfer` | criu/compression.c:1158-1192 | a block is copied to the cursor across iovecs, each byte once; it fails exactly when the destination is too short and never writes outside it |
| `EncodedRead.CheckBlock` | criu/compression.c:1295-1334 | a block that passes has valid metadata, fits payload and sizes, and has a place in the destination; one that does not makes the request unreadable |
| `EncodedRead.WriteBlock` | criu/compression.c:1336-1386 | zero, raw and split blocks are written at once and continue the decoded stream; a failure means that the request is not readable or the block too large to be decompressed |
| `EncodedRead.LeaveToJob` | criu/compression.c:1349-1363 | a block that fits the current iovec becomes a job whose range overlaps nothing written or left to another job |
| `EncodedRead.Scatter` | criu/compression.c:1289-1400 | exactly the compressed blocks, and with parallel zeroing the zero blocks, with one iovec for their destination are left to jobs and all others are written; payload and destination are used up exactly, or the request is not accepted |
| `EncodedRead.RunJobs` | criu/compression.c:1402-1413 | whatever order the pool runs the jobs in, they complete the destination, each byte written once |
| `EncodedRead.ReportIsPoolLog` | criu/compression.c:769-824 | whatever some run of the pool reports for the jobs, it ran them in such an order and the failure flag says exactly whether a job fails |
| `EncodedRead.SomeReport` | criu/compression.c:769-824 | for every list of jobs there is a report that some run of the pool makes |
| `EncodedRead.DecompressJobs` | criu/compression.c:826-901 | serial or pooled, the jobs are run in an order without repetition and the call succeeds exactly when all of them decode |
| `EncodedRead.Read` | criu/compression.c:1194-1416 | it succeeds exactly when metadata, payload and destination fit each other, every block is empty, as long as its pages or expanded by LZ4 to exactly these, and none is refused for its size; then each block has become zeros, a copy of what is stored or what LZ4 says, at its own place, every destination byte was written exactly once and nothing else; for every run of the pool and for the serial fallback |
| `EncodedRead.DecodeAllMeans` | criu/compression.c:286-328 | the decoded stream exists exactly when every block decodes, and each block has its own bytes of it: zeros, a copy, or what LZ4 says |
| `EncodedRead.PageLayout` | criu/compression.c:1295-1310 | without blocks of pages every block is one page, else it has the pages that the layout says |
| `EncodedRead.SmallMeansPermitted` | criu/compression.c:409-428 | the blocks refused for their size are exactly those that would need a job or LZ4 |
| `Prefetch.Context.Take` | criu/compression.c:1037-1067 | it succeeds exactly when the token is for the request and its read was complete, and then the payload buffer holds exactly the file bytes of that request |
| `Prefetch.Context.Disable` | criu/compression.c:978-989 | the prefetch buffer and its lease go together |
| `Prefetch.Context.Prepare` | criu/compression.c:991-1019 | it succeeds exactly when there are a lease and a buffer; a prepared prefetch owns the lease and a buffer other than the one being decoded, large enough for the request |
| `Prefetch.Context.Read` | criu/compression.c:955-976 | for any sequence of short, interrupted and failing reads the buffer holds the beginning of the range that was asked for |
| `Prefetch.Context.Publish` | criu/compression.c:1021-1035 | the buffers change roles and the token is there exactly when a completed prefetch is |
| `Prefetch.Context.EndWork` | criu/compression.c:920-945 | no lease, buffer or token is left |
| `Prefetch.Context.OpenBatch` | criu/compression.c:1541-1560 | a batch begins with the payload ready, or with none and no token, and has prepared the next request exactly when that is eligible and there are a lease and a buffer |
| `Prefetch.Context.Batch` | criu/compression.c:1541-1578 | a batch that succeeds was decoded from exactly its own range, read ahead or not, and has published the next request exactly when that was prepared and the batch ran in parallel |
| `Prefetch.ReadAll` | criu/compression.c:955-1067 | over a whole queue every request that succeeds was decoded from its own range, and without read errors all succeed whatever leases and prefetches do |
| `EncodedQueue.Batch` | criu/compression.c:1541-1578 | a batch that succeeds leaves the decoded blocks of its payload in the destination of the request, touches nothing else, and has read ahead exactly when that was prepared and possible; on a sound image without read errors it does succeed |
| `EncodedQueue.DeliveredMeans` | criu/compression.c:1336-1386 | block by block the destination of a delivered request holds zeros, a copy or the expansion of what the image has at its place |
| `EncodedQueue.ReadQueue` | criu/pagemap.c:1760-1800 | a queue that succeeds has delivered its requests one after the other, each from its own range of the image, and it does succeed on a sound image without read errors, whatever is read ahead, granted or pooled |
| `EncodedQueue.SameMemory` | criu/compression.c:1541-1578 | what a queue leaves in memory is determined by the image and the memory before |
| `EncodedQueue.ReadTwice` | criu/compression.c:1541-1578 | the same queue read with and without read-ahead, with any leases and any runs of the pool, leaves the same memory |
| `EncodedQueue.DeliveredFor` | criu/compression.c:1541-1578 | a request keeps its decoded blocks until a later one with a common address |
| `EncodedQueue.RestUntouched` | criu/compression.c:1541-1578 | an address that belongs to no request keeps its byte |
| `FdDistribution.RunInv` | criu/files.c:1208-1329 | the invariant of lists, queues, event bits and stages holds in every state of every interleaving |
| `FdDistribution.PlantedOnceFromMaster` | criu/files.c:1057-1090 | no check fails, and every slot holds nothing or exactly one file, the one its master opened |
| `FdDistribution.FinishedMeansPlanted` | criu/files.c:1276-1329 | when all tasks are through, every slot holds the file of its master and all phases of all open methods are over |
| `FdDistribution.NoLostWakeUp` | criu/files.c:199-227 | a message for a task that sleeps with its bit clear has a sender still between sending and setting the bit, a phase that a sleeping task could go on with has somebody still to tell it, and a sleeper with its bit set has its waker coming |
| `FdOrder.WaitsRespected` | criu/files.c:1208-1260 | in every reachable state every phase that has begun has what it waits for: the entries of its task in their slots, the phases of other files begun, and a file sent by a peer received |
| `FdOrder.RestoredMeansPlanted` | criu/files.c:1276-1329 | an entry that counts as restored has its file in its slot and all phases behind it |
| `FdDistribution.NeverStuck` | criu/files.c:1151-1329 | if the waits of the phases have no cycle, within tasks and across them, for restored entries, for begun phases and for files sent by a peer, no unfinished reachable state is stuck |
| `FdProgress.StepWork` | criu/files.c:1208-1329 | every step but a timeout leaves less to do, and a timeout adds at most one sleep |
| `FdProgress.EveryRunEnds` | criu/files.c:1208-1329 | every run has at most a number of steps given by the entries and their phases, and two for every timeout; if the waits have no cycle, its last state has all tasks through or somebody can step |
| `FdTableBarrier.Enrolment.Prepare` | criu/files.c:1556-1579 | a task joins its parent's table, every table counts its sharers exactly and its owner is one of them, and the sharers of a table have different service numbers |
| `FdTableBarrier.RunInv` | criu/files.c:1371-1411 | the counter is the number of sharers that have arrived, plus one after the owner is done, in every reachable state |
| `FdTableBarrier.BarrierSafety` | criu/files.c:1371-1411 | only the owner restores the table and only after all sharers have arrived, nobody goes on before it is done, and the counter stays within nr + 1 |
| `FdTableBarrier.BarrierProgress` | criu/files.c:1371-1411 | until every sharer is through, some sharer is enabled |
| `FdTableBarrier.BarrierEnds` | criu/files.c:1371-1411 | every run has at most four steps for each sharer, and then everybody is through |
| `RestoreStages.ParticipantCounts` | criu/cr-restore.c:146-167 | the count of `stage_participants` is the number of actors that take part in the stage, before and after the zombies are dropped |
| `RestoreStages.RunInv` | criu/cr-restore.c:212-239 | the counter is the number of participants still at work, in every state of every run, with and without namespaces |
| `RestoreStages.SingleWaitCoversRestore` | criu/cr-restore.c:2131-2217 | the one wait for zero that spans three stages cannot return before every participant has finished RESTORE, and the count stays at least one before |
| `RestoreStages.StagesAreBarriers` | criu/cr-restore.c:181-239 | nobody works in a stage before all participants of all earlier stages have finished them |
| `RestoreStages.SilentSwitchesWakeNobody` | criu/cr-restore.c:212-216 | when the root task switches a stage without a wake-up there is nobody to wake |
| `RestoreStages.NobodyDiesEarly` | criu/cr-restore.c:933-977 | no actor is gone while RESTORE is published, so that no parent ever finds a child dead too early |
| `RestoreStages.ChildrenDeadInTime` | criu/pie/restorer.c:1537-1590 | a task that has finished RESTORE_SIGCHLD has seen all its own zombies and helpers die |
| `StageProgress.ZombiesDeadInTime` | criu/cr-restore.c:443-464 | when the root task has finished RESTORE_SIGCHLD, the zombies of helpers and zombies are dead too |
| `StageProgress.GoesOnOrStuck` | criu/pie/restorer.c:1559-1587 | in every reachable state somebody can step, or all are done, or the root task waits for a count that nobody will change |
| `StageProgress.NeverStalls` | criu/cr-restore.c:1698-1724 | unless some zombie hangs by dying tasks from a zombie child of the root task, somebody can step until everyone is done |
| `StageProgress.DeadSessionCanStall` | criu/pstree.c:756-819 | a dead session leader and a dead member of its session make a tree that can stall |
| `StageEnd.StepWork` | criu/cr-restore.c:1698-1724 | every step of the restore leaves less to do |
| `StageEnd.EveryRunEnds` | criu/cr-restore.c:1698-1724 | every run has at most a number of steps given by the tree, and ends with all done, with somebody who can step, or with the root task waiting for nothing |
| `StageEnd.StuckStays` | criu/pie/restorer.c:1559-1587 | once the root task waits for a count that nobody will change, it does so whatever the others do |
| `StageEnd.SomeRunStalls` | criu/pie/restorer.c:1559-1587 | every tree with such a zombie has a run that ends before the restore does |
| `StageEnd.StallsExactly` | criu/pie/restorer.c:1559-1587 | a restore can stall if and only if some zombie hangs by dying tasks from a zombie child of the root task |
| `VmaHint.MappedAreTheReal` | criu/cr-restore.c:2570-2582 | stopping at the first guard entry leaves out exactly the guards |
| `VmaHint.Pass` | criu/cr-restore.c:2563-2582 | moving a cursor past a mapping that is in the way rules out every address up to its end |
| `VmaHint.Hint` | criu/cr-restore.c:2548-2609 | the lowest address from the minimum on that overlaps no mapping of either list and is bounded, or nothing if there is none |
| `VmaHint.HintWithin` | criu/cr-restore.c:2548-2609 | with no gap beyond the address space in both lists the result is the lowest address that is free in both and ends within it, and one is found exactly when there is one |
| `VmaHint.WithinExactly` | criu/cr-restore.c:2563-2609 | every result for every request ends within the address space if and only if no address beyond it is unmapped in both lists below a mapping in both |
| `VmaHint.OneWithin` | criu/cr-restore.c:2556-2562 | one list within the address space is enough for that |
| `VmaHint.BeyondWithoutGap` | criu/cr-restore.c:2556-2609 | it is not needed: two lists beyond the address space that have no such gap |
| `VmaHint.BothBeyond` | criu/cr-restore.c:2556-2609 | with a mapping beyond the address space in both lists the range found can lie beyond it |
| `BufferedRead.SplitJoin` | criu/bfd.c:228-290 | the pieces that reading must return, joined by the delimiter, are the file, but for the end of an unterminated last piece |
| `BufferedRead.SplitClean` | criu/bfd.c:228-290 | no piece contains the delimiter |
| `BufferedRead.PiecesFitMeans` | criu/bfd.c:247-257 | the limit that reading is proved against bounds the length of every piece |
| `BufferedRead.Bfd.Refill` | criu/bfd.c:156-175 | it fails exactly when there is room and the read fails; then exactly the bytes that the read had consumed are lost, and the unread stream is kept if and only if there were none; otherwise it keeps the stream and fills the buffer unless the file ends |
| `BufferedRead.FailedRefillLoses` | criu/bfd.c:156-175 | a read of two bytes that fails after the first leaves a stream with only the second |
| `BufferedRead.Bfd.Extend` | criu/bfd.c:192-226 | the buffer doubles without touching the stream unless that passes the limit |
| `BufferedRead.Bfd.ReadChr` | criu/bfd.c:228-290 | the next piece of the stream, whatever the buffer size and however much was already searched; when no read fails an error exactly when it does not fit, and then the stream is kept |
| `BufferedRead.StandardLimit` | criu/bfd.c:27-29 | from a page the buffer grows by doubling to exactly the dynamic limit |
| `BufferedRead.Bfd.Read` | criu/bfd.c:397-428 | the next bytes of the same stream, as many as there are |
| `BufferedRead.ReadPieces` | criu/bfd.c:228-290 | repeated reads give exactly the file cut at the delimiter for every starting buffer size, if and only if all pieces fit when no read fails |
| `BufferedRead.FullBufferRefused` | criu/bfd.c:247-257 | for every buffer size a file of another byte that just fills the largest buffer is refused, and one byte less is read |
| `BufferedWrite.Advance` | criu/bfd.c:365-376 | the inner loop moves the cursor over exactly the bytes written and stays inside the array |
| `BufferedWrite.WriteShifted` | criu/bfd.c:345-354 | one writev with the first entry shortened continues the data and puts the entry back |
| `BufferedWrite.WriteVector` | criu/bfd.c:339-380 | the caller's array is unchanged, the file has a beginning of the data and all of it on success; with positive partial writes it is always all, and success is reported exactly when the last entry is not empty |
| `BufferedWrite.TrailingEmptyEntry` | criu/bfd.c:359-363 | a vector that ends in an empty entry is written out and reported as an error |
| `BufferedWrite.Writer.Flush` | criu/bfd.c:292-306 | the file has everything accepted, or a beginning of it after an error |
| `BufferedWrite.Writer.Write` | criu/bfd.c:308-325 | what was accepted grows by exactly the data; the file is touched only when the buffer has no room, and then gets all that was buffered, and the data too when they are larger than the buffer |
| `BufferedWrite.Writer.WriteEach` | criu/bfd.c:382-394 | a run of writes appends the concatenation or stops at an error with a beginning of it |
| `BufferedWrite.Flushes.Close` | criu/bfd.c:129-154 | either the file has everything accepted or the failure flag is set, and the flag is never reset |
| `BufferedWrite.WriteImages` | criu/bfd.c:128-154 | if no write failed and the flag is clear at the end, every image file is the concatenation of what was written to it |
| `KcmpIds.GraftInOrder` | criu/kcmp-ids.c:86-150 | linking a node where a descent ended changes the order of the entries only there |
| `KcmpIds.Descend` | criu/kcmp-ids.c:96-104 | each turn of a descent keeps the key between the entries before and after the link |
| `KcmpIds.KidTree.FindHead` | criu/kcmp-ids.c:123-141 | the descent ends at the entry with the genid or at the only link where it could be |
| `KcmpIds.KidTree.FindEntry` | criu/kcmp-ids.c:86-112 | the descent by kernel comparison ends at the same object, at the only link for it, or on a failed call |
| `KcmpIds.KidTree.NewHead` | criu/kcmp-ids.c:143-150 | a new genid gets a node that keeps the tree in order, however it is rebalanced |
| `KcmpIds.KidTree.NewEntry` | criu/kcmp-ids.c:114-121 | a new object of a known genid keeps both trees in order and all other objects |
| `KcmpIds.KidTree.Generate` | criu/kcmp-ids.c:64-150 | a known object gets the ID it has, an unknown one the next of the counter with the new flag, and an error changes nothing |
| `KcmpIds.KidTree.LookupEpoll` | criu/kcmp-ids.c:152-197 | an entry is found only if it is the target, and exactly when the target was inserted with that genid unless a call fails |
| `FileIds.OnlyRegularAndFifoReused` | criu/file-ids.c:80-83 | of the file types only regular files and FIFOs ever reuse a cached ID |
| `FileIds.IdsDistinctUntilWrap` | criu/file-ids.c:82-91 | the new IDs of a dump are distinct and non-zero if and only if there are fewer than 2^32 of them |
| `FileIds.UnusedExactly` | criu/file-ids.c:82-91 | the next ID of the counter is non-zero and unused if and only if the counter is below 2^32 |
| `FileIds.WrapAround` | criu/file-ids.c:82-91 | with the counter at 2^32 a special file gets ID 0, and the next one the ID of the first |
| `FileIds.FdIds.CacheOne` | criu/file-ids.c:42-59 | a new cache entry hides older ones with the same key and no others |
| `FileIds.FdIds.Lookup` | criu/file-ids.c:61-71 | the newest entry of the chain with the key, or nothing |
| `FileIds.FdIds.GenerateSpecial` | criu/file-ids.c:73-95 | a fresh ID unless a cached one with the key may be reused, and what is cached afterwards; the fresh one is non-zero and unused exactly while the counter is below 2^32 |
| `FileIds.FdIds.Generate` | criu/file-ids.c:97-116 | the ID of the object, cached under its key when it is new; a new one is non-zero and unused exactly while the counter is below 2^32 |
| `FileIds.IdsMatchObjects` | criu/file-ids.c:73-116 | in any dump of fewer than 2^32 requests two files have the same ID exactly when they are one object, and every new ID, of a file or a special file, is non-zero and differs from all before |
| `FileIds.Serve` | criu/file-ids.c:73-116 | over any sequence of requests: files have the same ID source exactly when they are one object, an ID is new exactly when it was not given before, special files reuse one exactly when an earlier new one had their key and their type allows it, and then that one, and new IDs count up in 32 bits |
| `CgroupTree.FindThenLink` | criu/cgroup.c:245-265 | linking where the search stops is the recursive insertion |
| `CgroupTree.FoundIffThere` | criu/cgroup.c:245-265 | the search answers with an exact match if and only if the path is in the tree |
| `CgroupTree.SubPathMeans` | criu/include/util.h:210-253 | of canonical paths one is the sub path of another exactly when it is that path, the root, or leads to it with a slash behind |
| `CgroupTree.FindInnermost` | criu/cgroup.c:245-265 | the search ends at the longest sub path in the tree, and at none exactly when there is none |
| `CgroupTree.FindsParent` | criu/cgroup.c:245-265 | the search misses exactly a path that is not there and has no directory above it; a parent is above the path, every other directory above the path is above the parent, and no directory below the parent is above the path |
| `CgroupTree.AttachAt` | criu/cgroup.c:510-518 | a new directory becomes the last child of the one found |
| `CgroupTree.InsertPaths` | criu/cgroup.c:508-525 | a new path is added once and all others stay |
| `CgroupTree.InsertGood` | criu/cgroup.c:508-525 | every insertion keeps children below their parents at component boundaries and out of later siblings |
| `CgroupTree.GoodUnique` | criu/cgroup.c:508-525 | no path is in the tree twice |
| `CgroupTree.Controller.Add` | criu/cgroup.c:480-525 | adding a path again changes nothing, adding a new one adds exactly it |
| `CgroupTree.Collect` | criu/cgroup.c:480-525 | for every order of insertions the tree holds exactly the given paths, each once |
| `CgroupRestore.GoodShaped` | criu/cgroup.c:1051-1099 | canonical paths inserted in any order make a tree whose names can be cut off at the parent's length |
| `CgroupRestore.RebuildDump` | criu/cgroup.c:1073-1082 | appending the dumped names down the tree gives the inserted paths, with one more slash below "/" |
| `CgroupRestore.TwoSlashesBelowRoot` | criu/cgroup.c:1073-1082 | a directory "/" with a child "/a" is rebuilt with two slashes |
| `CgroupRestore.RebuildsPaths` | criu/cgroup.c:1051-1099 | dump and rebuild give exactly the inserted paths in order, up to repeated slashes |
| `CgroupRestore.AppendDir` | criu/cgroup.c:1721-1739 | for every offset the name is appended exactly when it fits, and the path before it is never touched |
| `CgroupRestore.Prepare` | criu/cgroup.c:2124-2188 | the directories visited with the one shared buffer are the rebuilt paths in order, all of them exactly when all fit and none fails |
| `GhostChunks.CopyOut` | criu/files-reg.c:171-186 | any sequence of partial transfers copies exactly the chunk, and it fails exactly on an error or a transfer of nothing before the end |
| `GhostChunks.Dump` | criu/files-reg.c:188-226 | for every legal answer of data and hole seeking the chunks are exactly the data found, each from where data was found behind the last chunk up to the next hole, or the whole file where seeking is not supported, and they rebuild the file; it fails only on a failing seek or transfer |
| `GhostChunks.HolesLeftOut` | criu/files-reg.c:188-226 | no byte between a reported hole and the next reported data, or the end, is dumped |
| `GhostChunks.Target.CopyIn` | criu/files-reg.c:314-338 | for every history of transfers, short, empty or failing, the file has the chunk at its offset as far as was transferred, and the call is through, has failed or still runs accordingly |
| `GhostChunks.Target.Restore` | criu/files-reg.c:340-362 | it is through if and only if every chunk was transferred, and then the file is the one that the chunks describe; else it stands where the first chunk stands that was not |
| `GhostChunks.TruncatedNeverEnds` | criu/files-reg.c:314-338 | on an image that ends inside a chunk the copy neither ends nor fails after any number of transfers |
| `GhostChunks.DumpAndRestore` | criu/files-reg.c:188-362 | dumped and restored, a sparse file has its contents back, and both are through once everything was transferred |
| `ParentDirs.RmParentDirs` | criu/files-reg.c:1960-1996 | exactly the innermost directories of the given number are removed, more than there are is an error, and the path buffer is restored on every way out |
| `ParentDirs.MakeEach` | criu/files-reg.c:2018-2038 | parents are made outermost first until one can be neither found nor made, and all are made when there is none; after a failure what was made is removed again |
| `ParentDirs.MakeParentDirs` | criu/files-reg.c:1999-2042 | it succeeds if and only if the lookup goes through and every parent is there or can be made; then all parents exist, the new ones are the innermost as many as returned; the path comes back changed, cut at the slash where making stopped, if and only if that is not the last slash |
| `ParentDirs.MakeAndUndo` | criu/files-reg.c:1960-2042 | removing the returned number of parents undoes a successful creation |
| `ParentDirs.FailureCutsPath` | criu/files-reg.c:2019-2031 | a path whose first directory cannot be made comes back cut short |
| `ParentDirs.FailureAtLastKeepsPath` | criu/files-reg.c:2019-2040 | a path whose last parent cannot be made comes back as it was |
| `Bitmap.LastWordBits` | criu/bitmap.c:7 | the mask of the last word has exactly the bits below the remainder |
| `Bitmap.Update` | criu/bitmap.c:11-49 | exactly the bits of the range are set or cleared |
| `Bitmap.SetThenClear` | criu/bitmap.c:11-49 | clearing what was set leaves the rest of the map as it was |
| `EpollOffsets.RunOffset` | criu/eventpoll.c:299-301 | one more than the neighbour in a run, and zero at its start, is the number of earlier entries with the same target |
| `EpollOffsets.Number` | criu/eventpoll.c:299-301 | the numbering loop gives every entry that number |
| `EpollOffsets.AtItsIndex` | criu/eventpoll.c:303 | sorting back by index puts every entry at its index |
| `EpollOffsets.Offsets` | criu/eventpoll.c:287-304 | for any correct sort, entry k is back at place k with the number of earlier entries for the same target |

## Left out

- LZ4 itself: decoding a block is a function that may fail.
- Weak memory ordering: every atomic operation is one step of an interleaving.
- Thread creation, CPU affinity, signal masks and stack sizes of the pool; a pool that cannot be created counts as width one, and a signal mask that cannot be restored does not occur.
- Allocation failures, logging, protobuf packing and image opening.
- `encoded_stream_read_batch`, the direct reads of the restorer blob, and requests of other storage kinds in the queue of reads.
- FdDistribution.NeverStuck: a phase tells every task that may wait for it, while the sockets of an inet port are told only by the last user of the port (criu/sk-inet.c:767-779).
- Aborts in the restore stages: nobody is killed and no wait returns an error.
- The free list of standard buffers in `criu/bfd.c` and the raw mode of `bread` and `bwrite`.
- BufferedWrite.WriteVector: the count of written bytes does not overflow an int, and `write_all` is a contract: everything, or a beginning and an error.
- Rebalancing of red-black trees: any change of shape that keeps the order of the entries.
- FileIds.Serve: the 64-bit counter behind the IDs does not wrap.
- CgroupTree.Collect: directories are values in a tree, not linked nodes, and the child counts are the lengths of the lists.
- cgroup properties, freezer state, namespaces and permissions; what happens at one directory is a success or a failure.
- The fiemap variant of the chunk dump, remaps, link handling and build IDs of `criu/files-reg.c`, and `trim_last_parent`.
- EpollOffsets.Sort: the C library's qsort is represented by its contract; the body given for it is an insertion sort.
- Option parsing, the RPC service, netlink, security modules, IPC, file locks and the orchestration of a dump.
