# Verified model of bc-io

A Dafny model of the stateful parts of bc-io, a C library of Linux I/O primitives, with
proofs of what they guarantee. `dafny verify dfyconfig.toml` checks the whole project.

## What is modelled

**Directory walks** (`Walk*.dfy`, `Sequential*.dfy`). `WalkReference` gives the reference of a walk: how one
directory entry is classified, and the trace of observable events (callbacks made, directories opened, errors
reported) of the recursive walk. The filesystem and the callbacks are fixed functions. `WalkMeaning` says without
the recursion, in terms of what the kernel answers, which events that trace consists of; `WalkHidden` adds what
leaving hidden entries out amounts to.

- `SequentialWalk` is the recursion as coded, with its early exits (rejected visit, stop request, missing
  reader); `SequentialResult` proves what it performs of the reference, and `SequentialInterruption` when an
  interrupted walk has performed a prefix of it.
- `WalkProtocol` is the parallel walk as an interleaving of worker steps. A worker that processes a directory
  carries the list of actions it still has to perform, nested entry loops included; each action makes at most one
  access to the shared queue, counter or flag. A schedule is any sequence of choices: which worker moves, whether a stop is
  requested, whether a pop fails (also on a non-empty queue) and which entry it takes, whether a push fails (also
  with room left), and whether a reader can be allocated. Theorems about `Run` therefore hold for every
  interleaving, every number of workers and every queue capacity of at least one.
- Two simplifications of the step granularity are exact. A statistics increment is merged with the callback it
  accompanies, because statistics are only read when all workers are done. A worker that finds `visit_failed`
  raised drops its whole list at once, because the flag is never lowered and every enclosing loop tests it next.
- `WalkConservation`, `WalkCounter` and `WalkFailure` are the invariants; `WalkTheorems`, `WalkOnce`, `WalkOrder`,
  `WalkListing`, `WalkTermination` and `WalkFairness` the results: what is done, that it is done once, in which
  order, and that it ends. `WalkStopping` is about stop requests, failures, missing readers and full queues.
  `WalkApi` has the two entry points, with the worker's steps written as code over the
  struct the workers share, and ends with the statement that both walks agree.
- `WalkClassification` is about directory records that carry no type.

**Inode set** (`BitMask`, `ProbeTable`, `InodeSet`). The hash table over its two arrays, with 64-bit arithmetic
written out through `Wrap`, proved to behave as a mathematical set over every sequence of calls. The mixing
function is the source's; the proofs use only that a home slot is below the capacity.

**Buffered stream** (`StreamIo*`, `Stream*`). The retry loops and the stream over a descriptor whose system calls
follow a script of outcomes: any transfer, short or not, EINTR, EAGAIN or a hard error. When the script is used up
calls move all they can, so a call sequence makes no progress only finitely often; without that assumption the
write loop need not terminate, since it retries a zero-length write and EINTR for ever. A read returns zero bytes
only at the end of the source.

**Directory reader** (`DirentReader`). The decoder of getdents64 records over the bytes of its buffer.

**Permissions** (`Permissions`) and **path joining** (`PathJoin`).

Each operation that updates a structure in place is a method over arrays and fields. Where later results need it
as a value, the method is proved equal to a function of the state, and the results are lemmas about that function.

## Findings

Where the code does not do what one might expect: an input that shows it, and the exact condition, for all inputs.

- **Lost input** (src/stream/bc_io_stream_read.c:12-14). A hard read error after a partial fill throws away the bytes
  already read. Input: `StreamReading.HardErrorLosesBytes`. Condition: a run is faithful exactly when no call has
  bytes to lose ahead of a hard error in the outcomes to come (`FaithfulExactlyWhenNoLossAhead`). After a loss
  `remaining_bytes` reports too much by just the lost bytes (`RemainingCountsDiscarded`).
- **Lost output** (src/stream/bc_io_stream.c:227-229). `close` ignores a failing flush. Input:
  `StreamWriting.CloseCanLoseBytes`. Condition: everything accepted is in the sink after closing exactly when
  the buffered bytes get through the outcomes to come (`CloseDeliversExactlyWhenItGetsThrough`).
- **Endless rounding** (src/file/bc_io_file_inode.c:34-37). `round_up_to_power_of_two` ends exactly for values up to
  2^63; for any value above, the shifted register becomes zero first (`InodeSet.RoundingEnds`).
- **Load before presence** (src/file/bc_io_file_inode.c:143-147). Inserting a key that is already there may double
  the table, or fail. Input for both: `InodeSet.InsertingAgainNeedsRoom`. Condition: an insertion is refused
  exactly when the table is full and cannot be doubled, present key or not (`ok <==>` of `InodeSet.InodeSet.Insert`).
- **Records without a type** (src/walk/bc_io_walk_parallel.c:148-154, src/walk/bc_io_walk_sequential.c:127-136). A
  symbolic link whose record carries no type is never followed, even with `follow_symlinks`. Input:
  `WalkClassification.UntypedLinkExample`. Condition: the kind changes for exactly the links that would be followed
  (`UntypedLinksAreNotFollowed`). Untyped files and directories also lose their permission mask
  (`UntypedEntriesLosePermissions`), so a filter on permissions can decide otherwise with no link in sight
  (`PermissionFilterExample`). A whole filesystem is walked alike with and without types when none of its links
  would be followed, and the filter and the descent check look neither at permissions nor at the metadata of
  links and special files (`UntypedWalkIsAlike`). Both walkers share this.
- **Withdrawn stop** (src/walk/bc_io_walk_sequential.c:64-66, 91-93). Every frame of the recursion asks for itself
  whether to stop. A stop answer that is followed by a withdrawal can leave out a directory in the middle. Input:
  `SequentialInterruption.WithdrawnStopLeavesAGap`. Condition: what was done is a prefix of the reference exactly
  when no reader was missing and no event followed a stop answer that had cut off something
  (`InterruptedWalkIsAPrefix`). A stop request that stays is followed by nothing (`StayingStopNeverResumes`), and
  one that is withdrawn need not be (`StopAtTheStartNeverResumes`).

## Model

| member | source | states |
|---|---|---|
| WalkTheorems.CompleteRunIsTheWalk | src/walk/bc_io_walk_parallel.c:211-288 | any run in which all workers exit with no stop, rejected visit or missing reader performed exactly the events of the recursive walk, as a multiset, with the same four counters; full-queue inline processing included |
| WalkTheorems.DrainedMeansDone | src/walk/bc_io_walk_parallel.c:276-284 | once one worker has left because the counter read zero, the whole walk is done, whatever the other workers do |
| WalkTheorems.VerdictIsScheduleFree | src/walk/bc_io_walk_parallel.c:349-356 | whether an undisturbed run fails does not depend on the schedule: it succeeds iff the callback accepts every entry the recursive walk shows it |
| WalkTheorems.NeverMoreThanTheWalk | src/walk/bc_io_walk_parallel.c:82-246 | in every reachable state, failing runs included, nothing was done that the recursive walk does not do at least as often |
| WalkTheorems.OutstandingCount | src/walk/bc_io_walk_parallel.c:226-228 | in every reachable state the count is queued entries plus popped directories plus increments in flight, is at most capacity plus twice the workers (so fits its int if that does), and is zero iff nothing is queued or in progress |
| WalkCounter.StepCounts | src/walk/bc_io_walk_parallel.c:226-284 | every step of every worker keeps the count invariant |
| WalkCounter.ZeroMeansQuiet | src/walk/bc_io_walk_parallel.c:281-284 | the count is zero iff the queue is empty and no worker is processing |
| WalkCounter.ZeroIsStable | src/walk/bc_io_walk_parallel.c:276-284 | once the count is zero it stays zero and no work appears, along every schedule |
| WalkCounter.NobodyDrainsEarly | src/walk/bc_io_walk_parallel.c:227-237 | while anything is queued or being processed, also inline after its own increment was rolled back, no step takes a worker out through the counter |
| WalkCounter.OutstandingIsBounded | src/walk/bc_io_walk_parallel.c:31 | the count never exceeds queue capacity plus twice the number of workers |
| WalkConservation.ScanBalances | src/walk/bc_io_walk_parallel.c:103-243 | each round of the entry loop makes exactly the entry's events and its subdirectory due, the other entries staying owed, or gives all of it up |
| WalkConservation.StepConserves | src/walk/bc_io_walk_parallel.c:211-291 | events done, owed by queue and workers, and given up always add up to the reference walk plus reader failures |
| WalkConservation.RunConserves | src/walk/bc_io_walk_parallel.c:293-338 | the same in every state of every run from the initial state |
| WalkFailure.OnlyRejectionRaises | src/walk/bc_io_walk_parallel.c:197-209 | only a rejected visit makes a processing worker raise the failure flag |
| WalkFailure.StepExplained | src/walk/bc_io_walk_parallel.c:85-106 | every step keeps: a rejected visit means the flag is or will be up, the flag and any abandoned work have such a cause, and the counters match the log |
| WalkFailure.RunExplained | src/walk/bc_io_walk_parallel.c:258-273 | the same in every state of every run |
| WalkStopping.StopFromTheStart | src/walk/bc_io_walk_parallel.c:267-270 | when every stop answer is yes, nothing is taken from the queue, opened or visited |
| WalkStopping.StopAllowsOneMore | src/walk/bc_io_walk_parallel.c:267-280 | after a stop request that stays, each worker takes at most one more directory, and none unless it had asked before |
| WalkStopping.FailureAllowsOneMore | src/walk/bc_io_walk_parallel.c:271-280 | once the failure flag is up, each worker takes at most one more directory, and none unless it had looked before |
| WalkStopping.LittleIsLoggedAfterFailure | src/walk/bc_io_walk_parallel.c:85-106 | once the failure flag is up, at most two more events per worker happen, however the run goes on |
| WalkStopping.NoReadersNoWalk | src/walk/bc_io_walk_parallel.c:257-265 | when no reader can be created nothing is opened, each worker reports it once, and the walk fails |
| WalkStopping.SkippedIsNeverOpened | src/walk/bc_io_walk_parallel.c:227-240 | a subdirectory whose fallback reader is missing is reported and never opened by anybody |
| WalkStopping.RoomMeansQueued | src/walk/bc_io_walk_parallel.c:226-241 | with room in the queue for everything, no subdirectory is processed inline |
| WalkOnce.DirMeetsOnce | src/walk/bc_io_walk_sequential.c:87-209 | with distinct slash-free names per directory, no path is opened or visited twice below a directory, and everything met lies below it |
| WalkMeaning.TraceIsMeaning | src/walk/bc_io_walk_sequential.c:58-214 | the recursive walk consists of exactly the events that some directory on a chain of accepted descents causes, by its opening, its listing, or an entry as the kernel describes it: name, record type, status answers, path length, filter |
| WalkMeaning.ExaminationMeans | src/walk/bc_io_walk_parallel.c:119-241 | the same for one entry: hidden or not, too long, without status, filtered, visited, entered |
| WalkHidden.EveryRunMeansIt | src/walk/bc_io_walk_parallel.c:82-246 | in every run of the parallel walk each event but a missing reader is one of those |
| WalkHidden.EveryWalkMeansIt | src/walk/bc_io_walk_sequential.c:58-214 | in every sequential walk, however disturbed, likewise |
| WalkHidden.HidingIsRemoving | src/walk/bc_io_walk_sequential.c:106-108 | leaving hidden entries out is walking, with everything asked for, a filesystem that does not have them |
| WalkHidden.NoWalkShowsHidden | src/walk/bc_io_walk_parallel.c:119-121 | unless asked for, no walk of either kind reports an entry whose name starts with a dot |
| WalkHidden.HiddenFileIsCountedOnDemand | src/walk/bc_io_walk_parallel.c:119-121 | the counters of a directory with one hidden file, for both settings |
| WalkOnce.AttemptsExactlyTheReachable | src/walk/bc_io_walk_sequential.c:193-208 | the recursion attempts each directory reachable by descents exactly once and no other |
| WalkOnce.AttemptsAreDescents | src/walk/bc_io_walk_sequential.c:72-78 | directories attempted are one more than descents |
| WalkOnce.TallyCounts | src/walk/bc_io_walk_sequential.c:31-37 | each counter counts its class of events |
| WalkOnce.RunMeetsOnce | src/walk/bc_io_walk_parallel.c:219-241 | no run, failed or not, opens a directory or visits an entry twice |
| WalkOnce.CompleteRunAttemptsEachOnce | src/walk/bc_io_walk_parallel.c:267-288 | a complete run has attempted every reachable directory exactly once and no other |
| WalkOnce.CompleteRunAccounting | src/walk/bc_io_walk_parallel.c:93-99 | directories visited plus open errors is one plus the number of descents |
| WalkOrder.AcceptedBeforeOpened | src/walk/bc_io_walk_parallel.c:205-241 | in every run, failed or not, a directory other than the root is opened only after the visit callback accepted it and the descent check agreed |
| WalkListing.ListingOrderIsKept | src/walk/bc_io_walk_parallel.c:103-243 | in every run what one directory causes comes in the order of its listing, without gaps, whatever the workers do in between |
| WalkListing.CompleteRunListsAll | src/walk/bc_io_walk_parallel.c:103-243 | a complete run has done all that each reachable directory causes, in the order of its listing |
| WalkStats.TallyIsOrderFree | src/walk/bc_io_walk_parallel.c:342-347 | the counters depend on which events happened, not on their order |
| WalkTermination.ChainsAreShort | src/file/bc_io_file_path.c:46-57 | a chain of descents, along links in cycles too, uses at least two characters of a path of at most 4095 for each directory, so it has at most (4095 - start) / 2 of them |
| WalkTermination.StepCosts | src/walk/bc_io_walk_parallel.c:248-291 | every step that is not idle spinning uses up part of a finite budget, links in cycles included |
| WalkTermination.ProductiveStepsAreBounded | src/walk/bc_io_walk_parallel.c:267-288 | every schedule contains a bounded number of steps that do something |
| WalkFairness.FairRunsFinish | src/walk/bc_io_walk_parallel.c:267-338 | every fair run ends: when each worker keeps being scheduled and its pops on a non-empty queue do not fail for ever, all workers exit, whatever else happens |
| WalkFairness.FairRunIsTheWalk | src/walk/bc_io_walk_parallel.c:293-356 | total correctness: a fair run with no stop and no missing reader ends, fails iff the recursive walk contains a rejected visit, and otherwise has done exactly that walk |
| WalkFairness.CompleteRunsExist | src/walk/bc_io_walk_parallel.c:334-338 | for every filesystem, worker count and capacity there is a complete, undisturbed run |
| WalkClassification.UntypedWalkIsAlike | src/walk/bc_io_walk_parallel.c:130-176 | where no link would be followed and nothing is decided by permissions or by the metadata of links and special files, taking the types out of all records leaves the walk as it was: same events in the same order, that metadata apart, same counters |
| WalkClassification.PermissionFilterExample | src/walk/bc_io_walk_parallel.c:137-168 | a filter on permissions visits a file with a record type and skips it without |
| SequentialWalk.Walker.Recurse | src/walk/bc_io_walk_sequential.c:58-214 | the recursion on the state struct, with every early exit, computes the state function the results are about; it terminates |
| SequentialWalk.Walker.ReadEntries | src/walk/bc_io_walk_sequential.c:87-210 | the entry loop likewise |
| SequentialResult.RecursedDoes | src/walk/bc_io_walk_sequential.c:58-214 | for all answers of the stop check and the allocator: nothing beyond the reference trace, and no more reports of a missing reader than openings; with no reader missing, exactly the reference trace when left alone |
| SequentialResult.UndisturbedWalkIsTheReference | src/walk/bc_io_walk_sequential.c:232-240 | an undisturbed walk performs the reference trace in order and counts it |
| SequentialResult.NeverMoreThanTheReference | src/walk/bc_io_walk_sequential.c:58-214 | no walk, however disturbed, does more than the reference; a failed one ends with the visit that the callback refused, having accepted all before |
| SequentialInterruption.RecursedTracks | src/walk/bc_io_walk_sequential.c:58-93 | up to the first stop answer that cuts something off the log follows the reference, and that answer cut off what the reference has there |
| SequentialInterruption.RecursedDiffers | src/walk/bc_io_walk_sequential.c:64-93 | what an enclosing directory does after such an answer is never the event the reference has there |
| SequentialInterruption.NoAnswerGoesUnnoticed | src/walk/bc_io_walk_sequential.c:64-85 | one reader is asked for per opened directory; a stop was seen iff some answer was yes, a reader was missing iff some allocation failed |
| SequentialInterruption.InterruptedWalkIsAPrefix | src/walk/bc_io_walk_sequential.c:64-93 | for all answers of the stop check and the allocator, the walk did a prefix of the reference iff no reader was missing and nothing followed a stop answer that cut something off |
| SequentialInterruption.WithdrawnStopLeavesAGap | src/walk/bc_io_walk_sequential.c:91-93 | a concrete walk that leaves a directory out in the middle |
| SequentialInterruption.StayingStopNeverResumes | src/walk/bc_io_walk_sequential.c:91-93 | a stop request that stays is followed by nothing, whatever else happens |
| SequentialResult.VerdictOfSequentialWalk | src/walk/bc_io_walk_sequential.c:187-202 | not stopped and not short of readers, it succeeds iff the callback accepts every entry the reference shows it |
| WalkApi.WalkSequential | src/walk/bc_io_walk_sequential.c:216-241 | exactly which arguments are refused, statistics, and the verdict: left alone, success iff the callback accepts every entry of the reference |
| WalkApi.Shared.Advance | src/walk/bc_io_walk_parallel.c:248-291 | the code of one worker step on the shared struct, with its loads, fetch-adds, stores, push and pop, is the protocol step |
| WalkApi.Shared.Process | src/walk/bc_io_walk_parallel.c:82-246 | the code of one step of processing a directory likewise: opening, the rounds of the entry loop, reporting, handing over, and the full-queue fallback; what is left of the enclosing loops is a list of actions |
| WalkApi.Shared.Dispatch | src/walk/bc_io_walk_parallel.c:334-338 | letting the workers run is the run of the protocol |
| WalkApi.WalkParallel | src/walk/bc_io_walk_parallel.c:293-356 | exactly which arguments and set-up failures are refused, queue capacity, statistics, and the verdict; completed and undisturbed, that of the reference walk |
| WalkApi.BothWalksAgree | src/walk/bc_io_walk_parallel.c:293-356 | the two walks with the same arguments return what their runs came to; undisturbed, the same verdict and the same counters |
| PathJoin.Join | src/file/bc_io_file_path.c:31-58 | succeeds iff the joined path and its NUL fit; writes exactly them and nothing beyond, or nothing at all |
| PathJoin.JoinedIsInjective | src/file/bc_io_file_path.c:31-58 | a joined path determines the directory and the slash-free name |
| BitMask.MaskIsModulo | src/file/bc_io_file_inode.c:48 | masking with capacity less one is reduction modulo a power-of-two capacity |
| BitMask.BitwiseMeaning | src/file/bc_io_file_inode.c:41-49 | conjunction and exclusive or act bit by bit |
| ProbeTable.Next | src/file/bc_io_file_inode.c:156 | the masked successor of a slot is the next one, or slot zero after the last |
| ProbeTable.FreeSlotEndsSearch | src/file/bc_io_file_inode.c:171-178 | a probe that reaches a free slot without meeting the key proves the key absent |
| ProbeTable.ProbeAdvances | src/file/bc_io_file_inode.c:151-157 | each probe keeps what was passed and gets one closer to any free slot |
| ProbeTable.PlaceKey | src/file/bc_io_file_inode.c:158-161 | storing a new key in the first free slot keeps the probe-chain invariant and distinctness and adds exactly that key |
| InodeSet.RoundUpToPowerOfTwo | src/file/bc_io_file_inode.c:29-39 | the least power of two at least two and at least the value, for values up to 2^63 |
| InodeSet.RoundingEnds | src/file/bc_io_file_inode.c:34-37 | the shifting loop reaches the value iff it is at most 2^63 |
| InodeSet.AllocateBuckets | src/file/bc_io_file_inode.c:51-72 | fails iff the byte size would wrap or memory is short; otherwise both arrays are zeroed |
| InodeSet.Reinsert | src/file/bc_io_file_inode.c:124-131 | adds one absent key without comparing keys, keeping the table invariant |
| InodeSet.Rehash | src/file/bc_io_file_inode.c:118-132 | moving every key to a larger empty table preserves the key set and re-establishes the invariant |
| InodeSet.InodeSet.Grow | src/file/bc_io_file_inode.c:108-139 | doubles the capacity with the same keys, or fails and leaves the set alone; never wraps |
| InodeSet.InodeSet.NeedsGrowth | src/file/bc_io_file_inode.c:143 | the 64-bit load test is the exact one: no product wraps |
| InodeSet.InodeSet.Find | src/file/bc_io_file_inode.c:149-157 | the probe loop ends, finds exactly the members, and otherwise stops at the key's first free slot |
| InodeSet.InodeSet.Insert | src/file/bc_io_file_inode.c:141-165 | adds the key and reports prior membership; exactly when it fails, and then nothing changes; exactly when it doubles |
| InodeSet.InodeSet.Contains | src/file/bc_io_file_inode.c:167-180 | membership |
| InodeSet.InodeSet.Clear | src/file/bc_io_file_inode.c:182-187 | empties the set by wiping occupancy only, capacity kept |
| InodeSet.InodeSet.GetSize | src/file/bc_io_file_inode.c:189-193 | the cardinality |
| InodeSet.InodeSet.Create | src/file/bc_io_file_inode.c:74-100 | an empty set of the rounded capacity, or failure exactly for want of memory or size |
| InodeSet.Replay | src/file/bc_io_file_inode.c:74-193 | a set is created iff its buckets fit, at the least power of two that will do; over every sequence of calls the replies, refusals included, are exactly those of an abstract set with that capacity; all rehashing scans fewer slots than the capacity, which stays below 8(peak+1)/3 or at its initial value |
| InodeSet.RefusalsHaveACause | src/file/bc_io_file_inode.c:143-147 | in every run an insertion is refused iff it finds the table full and gets no memory or a size that wraps |
| InodeSet.NothingRefusedWithMemory | src/file/bc_io_file_inode.c:108-116 | with memory granted and the table needed at the peak size small enough to be doubled, nothing is refused |
| InodeSet.UnrefusedIsAPlainSet | src/file/bc_io_file_inode.c:141-193 | then the members are those of a plain set fed with the same calls |
| InodeSet.RunStaysRoomy | src/file/bc_io_file_inode.c:108-145 | load at most three quarters after every call, and capacity bounded by the peak size |
| InodeSet.InsertingAgainNeedsRoom | src/file/bc_io_file_inode.c:143-147 | on two slots, inserting a key again doubles the table, or fails without memory although the key is a member |
| StreamIo.WriteAll | src/stream/bc_io_stream_io.c:52-78 | the write loop computes the write function |
| StreamIo.ReadAll | src/stream/bc_io_stream_io.c:20-50 | the read loop computes the read function and fills the buffer with what was read |
| StreamIoResult.WriteFullConserves | src/stream/bc_io_stream_io.c:59-77 | the sink receives exactly the bytes reported, in order |
| StreamIoResult.WriteFullEnds | src/stream/bc_io_stream_io.c:64-73 | a short count iff the last call gave EAGAIN, false iff it gave a hard error, everything before was harmless |
| StreamIoResult.HarmlessWriteIsComplete | src/stream/bc_io_stream_io.c:62-68 | short writes and EINTR alone never cut a write short |
| StreamIoResult.WriteFullGetsThrough | src/stream/bc_io_stream_io.c:59-77 | a write is complete iff, by the outcomes to come alone, all bytes get out before EAGAIN or a hard error |
| StreamIoResult.ReadFullConserves | src/stream/bc_io_stream_io.c:28-49 | the bytes read are the next stretch of the source; end of file is reported only at its end |
| StreamIoResult.ReadFullEnds | src/stream/bc_io_stream_io.c:36-45 | short of the end iff EAGAIN, false iff a hard error |
| StreamIoResult.HarmlessReadIsComplete | src/stream/bc_io_stream_io.c:28-38 | with short reads and EINTR alone, all that was asked for or all there is |
| Stream.AlignUp | src/stream/bc_io_stream_io.c:139-142 | the least multiple of 64 not below the size; fails iff that cannot be computed without wrapping |
| Stream.KnownBufferSizes | src/stream/bc_io_stream_io.c:117-137 | the buffer sizes that callers get |
| Stream.BufferedStream.Open | src/stream/bc_io_stream.c:115-143 | the initial state of a stream on a descriptor, whatever its declared kind, with default and aligned buffer size |
| Stream.BufferedStream.OpenMemory | src/stream/bc_io_stream.c:145-165 | the initial state of a memory stream |
| Stream.BufferedStream.FlushBuffer | src/stream/bc_io_stream_write.c:8-29 | flush with in-place compaction is the flush function; success leaves the buffer empty |
| Stream.BufferedStream.Write | src/stream/bc_io_stream_write.c:31-85 | write_chunk over the buffer array is the write function on every path |
| Stream.BufferedStream.Read | src/stream/bc_io_stream_read.c:64-79 | read_chunk is the read function for every kind of stream |
| Stream.BufferedStream.Close | src/stream/bc_io_stream.c:227-241 | closing flushes once and ignores the result |
| Stream.BufferedStream.RemainingBytes | src/stream/bc_io_stream.c:188-195 | the 64-bit difference that the results about remaining bytes speak of |
| StreamWriting.FlushTakesNothing | src/stream/bc_io_stream_write.c:14-28 | flushing moves bytes from buffer to sink without loss, duplication or reordering; true iff the buffer ends up empty |
| StreamWriting.WriteTakesReportedPrefix | src/stream/bc_io_stream_write.c:48-84 | whatever the system calls do, a write takes in exactly the prefix it reports |
| StreamWriting.WriteFailsExactly | src/stream/bc_io_stream_write.c:57-84 | write_chunk returns false iff the buffer had to be flushed and does not get out, or the direct write ended on a hard error |
| StreamWriting.WriteGoesWhere | src/stream/bc_io_stream_write.c:48-84 | data that fits is buffered without a system call; otherwise the buffer goes first, then at least a bufferful directly, or less into the buffer |
| StreamWriting.WriteIsCounted | src/stream/bc_io_stream_write.c:23-84 | which writes are counted, and which are counted as short |
| StreamWriting.FlushIsCounted | src/stream/bc_io_stream_write.c:8-29 | a flush is counted only when it falls short, and makes no system call when there is nothing to flush |
| StreamWriting.WriteNeedsWriteMode | src/stream/bc_io_stream_write.c:33-41 | a stream for reading, or on memory, takes nothing and stays as it is |
| StreamWriting.RunConservesBytes | src/stream/bc_io_stream_write.c:8-85 | over every run, sink then buffer is what was there followed by the accepted prefixes in call order, and the sink only grows |
| StreamWriting.WriteStreamInvariant | src/stream/bc_io_stream_write.c:48-84 | the sink is a prefix of the accepted bytes; position, byte counter and sink plus buffer agree; the buffer never overflows |
| StreamWriting.FlushDelivers | src/stream/bc_io_stream_write.c:23-28 | after any run a flush succeeds iff the sink then equals the accepted bytes; otherwise the rest is still buffered |
| StreamWriting.CloseDeliversExactlyWhenItGetsThrough | src/stream/bc_io_stream.c:227-229 | after any run, closing leaves all accepted bytes in the sink iff the buffered ones get through the outcomes to come |
| StreamWriting.CloseCanLoseBytes | src/stream/bc_io_stream.c:227-229 | a concrete accepted byte that closing loses |
| StreamWriting.UntroubledRunAcceptsAll | src/stream/bc_io_stream_io.c:62-68 | with short writes and EINTR only, every byte handed in is accepted |
| StreamWriting.UntroubledCloseDeliversAll | src/stream/bc_io_stream.c:227-229 | then closing leaves exactly the concatenation of all writes in the sink |
| StreamReading.ReadMovesThroughContent | src/stream/bc_io_stream_read.c:7-62 | a call consumes the chunk it delivers, or what it discards; position and byte counter move by the chunk |
| StreamReading.EndOfStreamIsSticky | src/stream/bc_io_stream_read.c:66-68 | end of stream is reported only when nothing is left, and stays |
| StreamReading.ReadFailsExactly | src/stream/bc_io_stream_read.c:12-19 | a read from a descriptor fails iff the last system call was a hard error, or nothing was left |
| StreamReading.EndIsSeen | src/stream/bc_io_stream_read.c:32-34 | without errors and EAGAIN, the end is noticed by the call whose buffer reaches beyond it |
| StreamReading.EndOfMemoryIsSeen | src/stream/bc_io_stream_read.c:43-46 | on memory, only by the call that finds nothing left |
| StreamReading.ReadIsCounted | src/stream/bc_io_stream_read.c:25-30 | which reads are counted, and which are counted as short |
| StreamReading.ReadNeedsReadMode | src/stream/bc_io_stream_read.c:70-72 | a stream for writing yields nothing and stays as it is |
| StreamReading.DiscardedIsLossAhead | src/stream/bc_io_stream_read.c:12-14 | how many bytes a call throws away, decided by the outcomes to come |
| StreamReading.HardErrorLosesBytes | src/stream/bc_io_stream_read.c:12-14 | a concrete failing read that loses a byte |
| StreamReading.RunMovesThroughContent | src/stream/bc_io_stream_read.c:25-36 | over every run, consumed is delivered plus discarded, and position and byte counter both count what was delivered |
| StreamReading.FaithfulExactlyWithoutLoss | src/stream/bc_io_stream_read.c:12-38 | the chunks concatenate to the consumed source iff no call discarded anything |
| StreamReading.FaithfulExactlyWhenNoLossAhead | src/stream/bc_io_stream_read.c:12-38 | the same decided by the outcomes ahead of each call |
| StreamReading.UntroubledReadsYieldChunks | src/stream/bc_io_stream_read.c:7-62 | without errors and EAGAIN, descriptor and memory sources alike yield the buffer-sized chunks of the content, then false for ever |
| StreamReading.UntroubledReadsDeliverAll | src/stream/bc_io_stream_read.c:7-62 | after as many calls as there are chunks exactly the whole content has been delivered |
| StreamReading.ChunksMakeTheContent | src/stream/bc_io_stream_read.c:48-55 | the chunks put together are the content |
| StreamReading.NumberOfChunks | src/stream/bc_io_stream_read.c:48-49 | there are ceil(length / buffer size) of them |
| StreamReading.RemainingCountsDiscarded | src/stream/bc_io_stream.c:188-195 | after any number of reads remaining_bytes is what is still to come plus what was thrown away |
| StreamReading.RemainingNeedsSize | src/stream/bc_io_stream.c:190-192 | it fails exactly on streams whose size is not known |
| StreamReading.RemainingOfMemoryStream | src/stream/bc_io_stream.c:188-195 | on a memory stream it is exactly what is still to come |
| DirentReader.DecodesRecord | src/file/bc_io_dirent_reader.c:82-98 | length, type and name of an encoded record are read back from their places |
| DirentReader.KnownRecord | src/file/bc_io_dirent_reader.c:24-32 | one record, byte by byte |
| DirentReader.RecognisesDots | src/file/bc_io_dirent_reader.c:86-88 | the byte comparisons recognise exactly "." and ".." |
| DirentReader.DecodeAt | src/file/bc_io_dirent_reader.c:82-100 | decoding the record at a position yields its name, type and length |
| DirentReader.Reader.Reset | src/file/bc_io_dirent_reader.c:57-63 | starts the new directory with nothing left of the old one |
| DirentReader.Reader.Next | src/file/bc_io_dirent_reader.c:65-102 | yields the next entry other than the dot entries, or the next failure, or the end; the cursor stays on a record boundary |
| DirentReader.ReadDirectory | src/file/bc_io_dirent_reader.c:65-102 | repeated calls yield exactly the remaining entries in order |
| DirentReader.BatchesDoNotShow | src/file/bc_io_dirent_reader.c:68-80 | without failures the result does not depend on how the records were cut into batches |
| DirentReader.VisibleIsEverythingElse | src/file/bc_io_dirent_reader.c:86-88 | each record that is not a dot entry appears exactly as often as it occurs |
| Permissions.FormatModeHuman | src/perm/bc_io_perm.c:36-65 | fails iff fewer than ten characters fit; otherwise writes the ten characters and nothing else |
| Permissions.KnownTypes | src/perm/bc_io_perm.c:10-34 | for every mode, which type character is shown, by its four type bits alone |
| Permissions.KnownUserForms | src/perm/bc_io_perm.c:42-48 | concrete forms that fix the characters used |
| Permissions.KnownGroupAndOtherForms | src/perm/bc_io_perm.c:49-62 | the same for the other two triples |
| Permissions.HumanRoundTrip | src/perm/bc_io_perm.c:36-123 | for every 32-bit mode, parsing the printed form, with or without the type character, gives mode & 07777 |
| Permissions.HumanAccepts | src/perm/bc_io_perm.c:67-123 | exactly which strings are parsed |
| Permissions.HumanReprints | src/perm/bc_io_perm.c:67-123 | printing a parsed string reproduces its nine rwx characters |
| Permissions.HumanReprintsWhole | src/perm/bc_io_perm.c:98-123 | it reproduces the whole string iff that has ten characters and type '?' |
| Permissions.FormatModeOctal | src/perm/bc_io_perm.c:125-137 | fails iff fewer than four characters fit; otherwise writes the four digits and nothing else |
| Permissions.ParseModeOctal | src/perm/bc_io_perm.c:139-169 | accepts exactly one to four octal digits; the loop computes their value |
| Permissions.KnownOctalForms | src/perm/bc_io_perm.c:125-137 | concrete octal forms |
| Permissions.OctalRoundTrip | src/perm/bc_io_perm.c:125-169 | for every 32-bit mode, parsing the octal form gives mode & 07777 |
| Permissions.OctalReprints | src/perm/bc_io_perm.c:125-169 | printing a parsed octal string gives it padded with zeros to four digits |

## Left out

- WalkFairness.FairRunsFinish: the spin pauses are not modelled.
- ProbeTable.Mix: the constants and shifts of the hash are the source's, but no result depends on them, only on the home slot being below the capacity.
- InodeSet.RoundUpToPowerOfTwo: requires a value of at most 2^63, because above that the source's loop does not end (see `InodeSet.RoundingEnds`).
- InodeSet.InodeSet.Create: requires a requested capacity of at most 2^63, for the same reason.
- InodeSet.Replay: likewise.
- Stream.BufferedStream.Open: requires a buffer size whose alignment does not wrap, because the code does not look whether the alignment succeeded (src/stream/bc_io_stream.c:24-25).
- Stream.AlignUp: stands for bc_core_align_up, which is outside this repository; that it fails just when the 64-bit addition would wrap is an assumption.
- SequentialInterruption.InterruptedWalkIsAPrefix: requires entry names without slashes, as directories hold them; the direction from the condition to the prefix is `UnresumedWalkIsAPrefix`, for any names.
- Memory orders: the relaxed, acquire and release operations are modelled as sequentially consistent.
- Callbacks and filesystem: fixed functions of the entry and the path; files that change during a walk, and callbacks with state of their own, are not modelled.
- The work queue: a bounded bag with atomic push and pop that may both fail spuriously; its implementation is not part of this model.
- Errno values and strings passed to `on_error`: only the stage and the path of an error are kept.
- The memory a chunk or an entry name points to: chunks and names are values, so their being overwritten by the next read or refill is not captured.
- The EINVAL branch of the directory reader: taken only when a name has no NUL, which well-formed records exclude; `DirentReader.ReadName` proves it is not reached.
- Opening by path, file size queries, allocation failures of streams, and closing of descriptors.
- Byte counters and positions of streams beyond 64 bits.
- Memory mapping, random bytes, current directory, user and group names, and all advise calls: thin wrappers around system calls.
