# braidinfer: verified models

Dafny models of the self-contained protocols, stores and codecs of the braidinfer inference
engine, with proofs about them. `dafny verify dfyconfig.toml` checks everything. Nothing here
runs the engine: the models follow the cited lines, and the theorems are about the models.

| component | files |
|---|---|
| grid barrier | GridBarrier |
| host/worker mailbox, exit protocol, host dispatch | Mailbox, MailboxSafety, MailboxProgress, MailboxService, MailboxExit, HostDispatch |
| paged KV cache: pools, copy-on-write, tiers, sequences, runs | Pools, PagedKv, PagedKvOps, PagedKvTiers, PagedKvSequences, PagedKvAppend, PagedKvWrite, PagedKvReset, PagedKvHandles, PagedKvRuns, PagedKvWitnesses, KvCache, KvLayout |
| replication to worker GPUs | Broadcast |
| BQNT file format | LittleEndian, Fnv, BqntFormat, BqntWriter, BqntReader, BqntRoundTrip |
| quantisers and bf16 rounding | Reals, Bf16, Nf4, Quant, Quantizer |
| fused dequantise-GEMV kernels | Sums, Reduce, Gemv |
| watchdog | Watchdog |
| expert sharding | Sharding |
| bf16 atomic add | Bf16Atomic |
| shared definitions | Words, Options, Arithmetic |

## How things are modelled

- The barrier, the mailbox and the atomic add are state machines with one program counter per
  block, thread or host. A run is any interleaving of their atomic actions, any number of
  blocks. Shared words are sequentially consistent. Counters that count rounds, batches or
  updates are history variables that no action reads.
- The host writes a batch word by word; a worker block fetches an instruction word by word. That
  a block never sees a torn batch is a theorem, not an assumption.
- The worker's outer loop is in a `.hip` file that is not part of this model. Its shape (poll,
  barrier, exit check, read sequence number and count, then per instruction a watchdog check and
  an operation with its trailing barrier, then the ack) is taken from
  kernels/rdna3/rdna3_persistent_protocol.h:15-34 and 121-125 and kernels/op_profile.h:12.
- The paged cache is one value, `Store`: two free lists, chunk records shared by reference between
  sequences, memory slots of KV entries, and a FIFO of copies that have been issued but not
  performed. A reference count above one is "another holder refers to the record". `View` is
  what the cache stands for, the list of entries of a sequence, read after all pending copies.
  `KvCache.Cache` is the same cache with fields updated in place; each of its methods is proved
  equal to the operation on values. A single handle in a caller's hands, as `alloc_with_host_backing`
  or `clone` returns it, is one more holder in the same list, marked `loose`: it owns a chunk like a
  sequence does but has no tokens and positions of its own. `evicting` notes the chunks that are
  between the two phases of an eviction, which the program's callers keep track of themselves.
- Failures of foreign calls are Boolean parameters (`copyOk`, `syncOk`), so that every error path is
  modelled.
- Files are byte sequences with a cursor. Metadata is an opaque nonempty byte string. A tensor is
  named by a byte string and found under the FNV-1a hash of it.
- Kernels are computed in exact real arithmetic. f32-to-bf16 conversion is modelled on bit patterns
  and proved to be roundTiesToEven (section 4.3.1 of IEEE 754-2019); the quantisers take any such
  conversion as a parameter, and `Quantizer.SuchAConversionExists` shows that there is one which is
  the program's on every f32 number.
- Clocks, the mapped watchdog page and acknowledgement words read by the host become observation
  traces.

## What the proofs show to be wrong or conditional

- `make_exclusive` loses the newly popped VRAM slot when the copy fails; that is the only outcome
  after which the cache is not intact (`PagedKvSequences.MakeExclusiveKeepsValid`).
- `append_token` corrupts the cache exactly when it counts the token on a partial chunk that another
  holder shares (`PagedKvAppend.AppendKeepsValid`).
- `reset` keeps the cache intact exactly when, for each chunk that only this sequence holds, the host
  allocator is at hand if the chunk has a host slot, and no pending copy uses a slot that is freed
  (`PagedKvReset.ResetKeepsValid`).
- Freeing the VRAM slot at the end of an eviction is safe exactly when no pending copy uses it, which
  is what the flush before it is for (`PagedKvTiers.FinishEvictKeepsValid`).
- A handle that goes out of scope outside of a reset frees nothing, so that forgetting the last one
  of a chunk loses its slots (`PagedKvHandles.ForgetKeepsValid`).
- Each of these failures is reached from a new cache by a few operations within the callers'
  contract (`PagedKvWitnesses`).
- An empty batch makes the worker execute one instruction that nobody sent, the one left in the first
  slot of the buffer, and acknowledge it (`MailboxProgress.EmptyBatchRunsStaleInstruction`); a batch
  is executed as sent exactly when it is not empty (`MailboxSafety.PlannedAsSentIffNonempty`).
- After 0xFFFFFFFE dispatches the sequence number wraps to 1 and the worker, which waits for a larger
  one, never notices the next batch (`Mailbox.NewBatchIsNoticed`). From every start a run gets there,
  and then the host waits for ever (`MailboxService.WrappedDispatchHangs`); a run with k Oks exists
  exactly for k up to 0xFFFFFFFE (`MailboxService.ServedIffNotWrapped`).
- A shutdown request always stops the worker (`MailboxExit.ShutdownStopsTheWorker`). Force-exit does
  so exactly when the leader has seen it or still has a watchdog poll of the batch in flight before it
  (`MailboxExit.ForceExitStopsTheWorkerIff`); every batch in flight reaches a point from which on, still
  unacknowledged, force-exit stops no block (`MailboxExit.ForceExitCanComeTooLate`). The shutdown
  number stays in `seq_num` unless the host publishes another batch after the leader has left.
- The fused gate/up kernels leave the up projection untouched on a grid of one block
  (`Gemv.CoopGemvFusedGateUp`).
- The BQNT reader compares tensors with the reserved table region only. That keeps tensors clear of
  the table exactly when the region covers it (`BqntReader.CheckClearsTableIff`). In a file as written
  the table is clear of the tensors exactly when it fits the reserve or no tensor has bytes
  (`BqntRoundTrip.TableClearIffItFits`), and a tensor is read back exactly when the table agrees with
  it wherever it lies over it (`BqntRoundTrip.RoundTripIff`). A file of 1365 differently named tensors
  with one entry reserved is accepted, whatever its metadata, although its table has destroyed its
  first tensor
  (`BqntRoundTrip.AcceptedAlthoughTableOverlaps`). A file without tensors is refused, and a reserved
  count of 0 is read back as 4096, so that acceptance needs a count of at least 1
  (`BqntRoundTrip.AcceptedIffReadable`).
- A hundred beats show the host a larger counter exactly when the kernel's 32-bit count does not wrap
  meanwhile (`Watchdog.BeatsShowProgressIff`). A kernel that beats on across the wrap is forced to
  exit and then aborted (`Watchdog.WrapLooksStalled`).
- docs/bqnt_format.txt calls format code 3 PcG32Q5 and header bytes 12-15 reserved (0); the code
  uses 3 for F32 and the bytes for the reserved entry count. The model follows the code.

## Model

| member | source | states |
|---|---|---|
| GridBarrier.ActKeepsInv | kernels/rdna3/rdna3_barrier.h:191-251 | every atomic action of any block keeps the barrier invariant, with `generation` wrapping mod 2^32 |
| GridBarrier.BarrierSafety | kernels/rdna3/rdna3_barrier.h:209-249 | over every schedule: no block leaves round k before all arrived in it, completed counts differ by at most one, and resetting the counter loses no arrival |
| GridBarrier.SomeBlockCanAct | kernels/rdna3/rdna3_barrier.h:217-246 | no deadlock: while a block is short of a round, one that is short has an action that is not a spin |
| GridBarrier.ActionLowersWork | kernels/rdna3/rdna3_barrier.h:217-246 | every such action lowers a measure |
| GridBarrier.UsefulSchedulesAreBounded | kernels/rdna3/rdna3_barrier.h:217-246 | whatever the scheduler does, only boundedly many useful actions fit before all blocks are through |
| GridBarrier.EveryRoundCompletes | kernels/rdna3/rdna3_barrier.h:217-246 | from every reachable state all blocks can be brought through any number of rounds |
| Mailbox.NewBatchIsNoticed | crates/braidinfer-runtime/src/persistent_dispatch.rs:991-1000 | the next sequence number is larger than the last one exactly for fewer than 0xFFFFFFFE earlier dispatches |
| Mailbox.SeqOfIs | crates/braidinfer-runtime/src/persistent_dispatch.rs:991-1000 | the k-th sequence number counts from 1 to 0xFFFFFFFE and round again, never 0 and never the shutdown number |
| MailboxSafety.EventKeepsInv | kernels/rdna3/rdna3_persistent_protocol.h:140-214 | every host, block or outside event keeps the control and data invariant of the protocol |
| MailboxSafety.BlocksExecuteTheHostsBatches | kernels/rdna3/rdna3_persistent_protocol.h:151-214 | over every run and on every block: what was executed is a prefix of the published batches, in order and word for word, and contains everything acknowledged |
| MailboxSafety.OkAfterEveryBlockExecuted | crates/braidinfer-runtime/src/persistent_dispatch.rs:806-835 | when a wait returns Ok every block has executed every published instruction |
| MailboxSafety.OkOnlyAfterExecution | crates/braidinfer-runtime/src/persistent_dispatch.rs:806-835 | the same over every run from the start |
| MailboxSafety.OkMeansAcknowledged | crates/braidinfer-runtime/src/persistent_dispatch.rs:806-835 | the ack the host sees belongs to the batch it waits for |
| MailboxSafety.PlannedAsSentIffNonempty | kernels/rdna3/rdna3_persistent_protocol.h:195-198 | a batch is executed as sent if and only if it is not empty |
| MailboxProgress.EmptyBatchRunsStaleInstruction | kernels/rdna3/rdna3_persistent_protocol.h:195-203 | from every start, dispatching an empty batch returns Ok after every block has executed exactly one instruction, the stale contents of slot 0 |
| MailboxSafety.BlocksAgreeOnTheBatch | kernels/rdna3/rdna3_persistent_protocol.h:151-203 | blocks running a batch agree on sequence number and count and are at most one instruction apart |
| MailboxSafety.WrappedDispatchIsNeverAcknowledged | kernels/rdna3/rdna3_persistent_protocol.h:170-182 | no run gets an Ok for more than 0xFFFFFFFE dispatches |
| MailboxSafety.ExitAgreement | kernels/rdna3/rdna3_persistent.h:104-122 | once a block took the shutdown or watchdog exit, every other one took it, is about to, or is released in front of the same check; none is blocked and all executed the same |
| MailboxSafety.NoBlockIsLeftBehind | kernels/rdna3/rdna3_persistent_protocol.h:181-191 | the same over every run from the start |
| MailboxSafety.EveryBlockExits | kernels/rdna3/rdna3_persistent_protocol.h:151-191 | after one exit all other blocks exit by their own steps alone, in boundedly many |
| MailboxExit.StepLowersStopWork | kernels/rdna3/rdna3_persistent_protocol.h:151-214 | once a stop is requested that the worker will see, every action of a block that has not exited and does not spin in the barrier lowers a measure |
| MailboxExit.EveryBlockStops | kernels/rdna3/rdna3_persistent_protocol.h:151-191 | such a stop brings all blocks to their exit by boundedly many steps of the blocks alone |
| MailboxExit.ShutdownStopsTheWorker | kernels/rdna3/rdna3_persistent_protocol.h:160-191 | over every run, idle, mid-batch or after a wrapped dispatch: once shutdown is requested all blocks can be brought to their exit by boundedly many of their own steps, and without force-exit `done` is set and the shutdown number written |
| MailboxExit.ForceExitStopsTheWorkerIff | kernels/rdna3/rdna3_persistent.h:104-122 | over every run: force-exit alone can stop the worker if and only if the leader has seen it or has a watchdog poll of the batch in flight before it |
| MailboxExit.ForceExitStopsTheWorker | kernels/rdna3/rdna3_persistent.h:104-122 | with such a poll ahead all blocks exit in boundedly many of their own steps |
| MailboxExit.ForceExitCanComeTooLate | kernels/rdna3/rdna3_persistent.h:104-122 | from every state with a batch in flight there are block steps after which force-exit, raised before the ack, stops no block by block steps |
| MailboxProgress.SomeoneCanAct | kernels/rdna3/rdna3_persistent_protocol.h:205-214 | with a batch in flight some block has an action that is not a spin |
| MailboxProgress.ActionLowersTotalRank | kernels/rdna3/rdna3_persistent_protocol.h:205-214 | every such action lowers a measure |
| MailboxProgress.NextAckIsReached | kernels/rdna3/rdna3_persistent_protocol.h:15-34 | every reachable state with a batch in flight progresses to its ack without the host, in boundedly many steps |
| MailboxProgress.WaitReturns | crates/braidinfer-runtime/src/persistent_dispatch.rs:806-835 | a waiting host therefore gets its Ok, and by then every block has executed exactly what was published |
| MailboxProgress.LateAckNeverReturns | kernels/rdna3/rdna3_persistent_protocol.h:6-18 | acking in the next iteration wedges every run: the first dispatch never returns until shutdown |
| MailboxService.ServeOne | crates/braidinfer-runtime/src/persistent_dispatch.rs:960-1000 | an idle host can dispatch any batch, gets its Ok and is idle again, as long as the number does not wrap |
| MailboxService.EveryProgramIsServed | crates/braidinfer-runtime/src/persistent_dispatch.rs:960-1000 | from every start and for any up to 0xFFFFFFFE batches there is a run that dispatches just these, gets an Ok for each, and has every block execute them all |
| MailboxService.WrappedDispatchHangs | crates/braidinfer-runtime/src/persistent_dispatch.rs:991-1000 | from every start a run reaches the wrapped dispatch with nobody having asked to stop, and in every continuation the host never gets an Ok again |
| MailboxService.ServedIffNotWrapped | crates/braidinfer-runtime/src/persistent_dispatch.rs:991-1000 | a run in which the host gets k Oks exists if and only if k is at most 0xFFFFFFFE |
| HostDispatch.DispatchBatchSlice | crates/braidinfer-runtime/src/persistent_dispatch.rs:1044-1050 | slices of a program of any length are nonempty, full but for the last, fit the buffer, and concatenate to the program with base plus position equal to the global index |
| HostDispatch.SlicedProgramIsExecuted | crates/braidinfer-runtime/src/persistent_dispatch.rs:1044-1050 | whatever was dispatched before, an Ok for the last slice means that every block executed the earlier batches and then exactly the program |
| HostDispatch.SlicedProgramIsExecutedInRuns | crates/braidinfer-runtime/src/persistent_dispatch.rs:1044-1050 | the same over every run from the start |
| HostDispatch.SweepOnce | crates/braidinfer-runtime/src/persistent_dispatch.rs:851-940 | one pass marks exactly the targets whose ack it saw and counts the new ones |
| HostDispatch.TryWaitAcksMany | crates/braidinfer-runtime/src/persistent_dispatch.rs:851-940 | Ok if and only if every target was seen acknowledged, and as soon as that is so; otherwise the first missing target and the reason |
| Pools.NewPoolConserved | crates/braidinfer-runtime/src/paged_kv.rs:116-133 | a new pool has every slot free exactly once |
| Pools.AllocConserves | crates/braidinfer-runtime/src/paged_kv.rs:137-142 | popping a slot for a new record keeps every slot free exactly once or held by exactly one record |
| Pools.FreeConserves | crates/braidinfer-runtime/src/paged_kv.rs:145-158 | a slot given back by its holder passes the range and double-free checks and is conserved |
| Pools.AllocThenFree | crates/braidinfer-runtime/src/paged_kv.rs:137-158 | popping and pushing back restores the very same free list |
| Pools.FreeThenAlloc | crates/braidinfer-runtime/src/paged_kv.rs:137-158 | the slot freed last is handed out first |
| Pools.NewPoolCountsUp | crates/braidinfer-runtime/src/paged_kv.rs:116-142 | a new pool hands out slots 0, 1, 2, ... up to its capacity and then nothing |
| Pools.NothingHeldMeansFull | crates/braidinfer-runtime/src/paged_kv.rs:278-291 | when nothing is held every slot is free |
| PagedKv.SettleOneMore | crates/braidinfer-runtime/src/paged_kv.rs:569-594 | issuing a copy last and performing it last are the same: copies form a FIFO |
| PagedKv.SettleAroundIdle | crates/braidinfer-runtime/src/paged_kv.rs:458-467 | a store into a slot that no pending copy uses commutes with performing the copies |
| PagedKv.SlotsApart | crates/braidinfer-runtime/src/paged_kv.rs:137-158 | no two records share a slot in either tier |
| PagedKv.ViewLength | crates/braidinfer-runtime/src/paged_kv.rs:740-760 | a sequence has one entry and one position per token |
| PagedKv.TokenLocation | crates/braidinfer-runtime/src/paged_kv.rs:811-848 | token t is entry t % chunk_tokens of chunk t / chunk_tokens |
| PagedKvOps.ForkKeepsValid | crates/braidinfer-runtime/src/paged_kv.rs:850-861 | cloning all handles of a sequence keeps the cache intact; the new list equals the old one and no list changes |
| PagedKvOps.CompleteOneKeepsValid | crates/braidinfer-runtime/src/paged_kv.rs:569-594 | the copy engine finishing its oldest copy changes no list |
| PagedKvOps.FlushKeepsValid | crates/braidinfer-runtime/src/persistent_dispatch.rs:515-546 | waiting for all copies changes no list and leaves none pending |
| PagedKvTiers.PromoteKeepsValid | crates/braidinfer-runtime/src/paged_kv.rs:595-640 | promote changes no list, succeeds exactly when a VRAM slot is free and the copy is issued, and otherwise changes nothing |
| PagedKvTiers.EvictKeepsValid | crates/braidinfer-runtime/src/paged_kv.rs:672-710 | issuing the download changes no list and marks the chunk evictable; a failure changes nothing |
| PagedKvTiers.FinishEvictKeepsValid | crates/braidinfer-runtime/src/paged_kv.rs:719-736 | the slot passes the free checks; the cache stays intact if and only if no pending copy uses it, and then no list changes |
| PagedKvSequences.MakeExclusiveKeepsValid | crates/braidinfer-runtime/src/paged_kv.rs:410-456 | exact outcome conditions; no list changes; a sole owner's chunk and an exhausted pool change nothing; success takes one slot and leaves the chunk unshared; the cache stays intact if and only if the copy did not fail |
| PagedKvAppend.AppendKeepsValid | crates/braidinfer-runtime/src/paged_kv.rs:811-848 | fails exactly when a chunk is needed and no slot is left, changing nothing; else one token and position more, a new chunk from VRAM while there is any and only then from host memory, all other lists unchanged; intact if and only if no shared partial chunk is appended to |
| PagedKvHandles.AllocWithHostBackingKeepsValid | crates/braidinfer-runtime/src/paged_kv.rs:542-567 | both slots or none: failure leaves the cache identical, success gives the caller one handle of a new empty record with a slot in each tier and changes no list |
| PagedKvHandles.CloneKeepsValid | crates/braidinfer-runtime/src/paged_kv.rs:386-389 | cloning one handle of any holder keeps the cache intact and changes no list; the clone reads that chunk's piece of the holder's list |
| PagedKvHandles.AttachKeepsValid | crates/braidinfer-runtime/src/paged_kv.rs:1535-1565 | pushing a caller's handle onto a sequence moves its list to the end of the sequence's list and keeps the cache intact |
| PagedKvHandles.IncrementKeepsValid | crates/braidinfer-runtime/src/paged_kv.rs:478-480 | counting a token on a handle nobody else holds adds one entry to its list and changes no other |
| PagedKvHandles.ForgetKeepsValid | crates/braidinfer-runtime/src/paged_kv.rs:365-389 | a handle going out of scope changes no other list; the cache stays intact if and only if somebody else holds its chunk |
| PagedKvWrite.WriteKeepsValid | crates/braidinfer-runtime/src/paged_kv.rs:458-467 | a write through a slot that no pending copy uses replaces exactly the addressed entry in exactly the holders of the chunk |
| PagedKvReset.ResetKeepsValid | crates/braidinfer-runtime/src/paged_kv.rs:862-901 | with or without pending copies: intact if and only if no host slot loses its owner and no freed slot is used by a pending copy; then handles, token count and positions of the sequence are cleared, its version is one higher and no other list changes |
| PagedKvReset.AllEmptyMeansPoolsFull | crates/braidinfer-runtime/src/paged_kv.rs:850-901 | when no holder has a handle left every slot of both pools is free |
| PagedKvRuns.StepRefines | crates/braidinfer-runtime/src/paged_kv.rs:410-901 | every operation within the callers' contract does to one list per holder what it should; a failed one changes nothing |
| PagedKvRuns.RunRefines | crates/braidinfer-runtime/src/paged_kv.rs:410-901 | over every run within the callers' contract, handles in callers' hands included, the cache refines plain lists and keeps its invariant: slots conserved, tier and slots consistent, no pending copy on a free slot |
| PagedKvRuns.UntouchedSequencesReadTheSame | crates/braidinfer-runtime/src/paged_kv.rs:569-736 | a sequence that is not appended to, written or reset reads the same at the end of any run, through eviction, slot reuse and promotion |
| PagedKvRuns.KernelReadsTheList | crates/braidinfer-runtime/src/persistent_dispatch.rs:515-546 | after a flush the VRAM slot of chunk t / tokens holds entry t at t % tokens, in every reachable state |
| PagedKvRuns.ResetGivesEverythingBack | crates/braidinfer-runtime/src/paged_kv.rs:850-901 | any run that leaves no handle, in any order, leaves both pools full |
| PagedKvWitnesses.AppendCanCorrupt | crates/braidinfer-runtime/src/paged_kv.rs:811-848 | one append and one fork reach a state in which the next append corrupts the cache |
| PagedKvWitnesses.ExclusiveCanLoseASlot | crates/braidinfer-runtime/src/paged_kv.rs:410-456 | in the same state a failed copy loses the last VRAM slot |
| PagedKvWitnesses.ResetCanFreeABusySlot | crates/braidinfer-runtime/src/paged_kv.rs:862-901 | a reset right after an asynchronous make-exclusive frees the slot the copy is about to fill |
| PagedKvWitnesses.ResetCanLeak | crates/braidinfer-runtime/src/paged_kv.rs:862-901 | a spilled token and a reset without the host allocator lose the host slot |
| PagedKvWitnesses.ForgetCanLeak | crates/braidinfer-runtime/src/paged_kv.rs:542-567 | forgetting the only handle of a backed chunk loses both slots |
| PagedKvWitnesses.FinishCanFreeABusySlot | crates/braidinfer-runtime/src/paged_kv.rs:719-736 | freeing the VRAM slot before the flush frees it under the copy that reads it |
| KvCache.PageAllocator.AllocSlot | crates/braidinfer-runtime/src/paged_kv.rs:137-142 | in place: pops the last free slot, or nothing when there is none |
| KvCache.PageAllocator.FreeSlot | crates/braidinfer-runtime/src/paged_kv.rs:145-158 | in place: pushes a slot that is in range and not free |
| KvCache.Cache.AppendToken | crates/braidinfer-runtime/src/paged_kv.rs:811-848 | in place, equal to the append on values |
| KvCache.Cache.MakeExclusiveChunk | crates/braidinfer-runtime/src/paged_kv.rs:410-456 | in place, equal to make-exclusive on values |
| KvCache.Cache.PromoteChunk | crates/braidinfer-runtime/src/paged_kv.rs:595-640 | in place, equal to promote on values, with its rollback |
| KvCache.Cache.EvictChunk | crates/braidinfer-runtime/src/paged_kv.rs:672-710 | in place, equal to the first half of the eviction |
| KvCache.Cache.AllocBacked | crates/braidinfer-runtime/src/paged_kv.rs:542-567 | in place, equal to the backed allocation on values |
| KvCache.Cache.FlushTierOps | crates/braidinfer-runtime/src/persistent_dispatch.rs:540-546 | performing the copies one by one ends in the settled memory |
| KvCache.Cache.EvictChunkAndFree | crates/braidinfer-runtime/src/paged_kv.rs:719-736 | evict, flush, free: no list ever changes; success leaves the chunk in host memory and nothing pending; a failed copy changes nothing; a failed wait leaves the copy pending and the chunk where it was |
| KvCache.Cache.ResetSequence | crates/braidinfer-runtime/src/paged_kv.rs:862-901 | the drain loop equals the reset on values, whatever is pending; a freed slot always passes the allocator's range and double-free checks |
| KvLayout.RegionsTileTheChunk | crates/braidinfer-runtime/src/paged_kv.rs:29-68 | the data and scale regions of all layers tile the quantised chunk: every byte belongs to exactly one |
| KvLayout.RegionsAreInOrder | crates/braidinfer-runtime/src/paged_kv.rs:45-68 | layer by layer, keys before values, in each data, scale, residual data, residual scale, every region starting where the one before ends |
| Broadcast.MirrorChunk | crates/braidinfer-runtime/src/multi_gpu.rs:483-527 | brings one chunk of one worker level with GPU 0 without indexing past GPU 0's positions; out of memory exactly when the worker cannot have that many chunks, else success exactly when the copy is issued; on error the worker is still a prefix |
| Broadcast.LockstepIsReplica | crates/braidinfer-runtime/src/multi_gpu.rs:456-463 | a worker level on every chunk has the same positions, chunk count, chunk lengths and entries |
| Broadcast.MultiGpu.BroadcastPagedChunksToWorkers | crates/braidinfer-runtime/src/multi_gpu.rs:465-531 | succeeds if and only if every worker has room for all chunks and every copy is issued; success makes every worker a replica; whatever happens every worker stays a valid prefix and GPU 0's entry is untouched |
| LittleEndian.FromTo | crates/braidinfer-runtime/src/bqnt.rs:277-302 | reading back a little-endian integer that fits its width gives the integer |
| LittleEndian.ToFrom | crates/braidinfer-runtime/src/bqnt.rs:346-370 | writing back what was read gives the bytes |
| Fnv.TwoByteNamesDiffer | crates/braidinfer-runtime/src/bqnt.rs:55-62 | names of two bytes with the same FNV-1a hash are the same |
| Fnv.KnownHashes | crates/braidinfer-runtime/src/bqnt.rs:55-62 | the published hashes of no byte, of "a" and of "b" |
| BqntFormat.CheckedSizeIsExact | crates/braidinfer-runtime/src/bqnt.rs:113-145 | the checked size is the unbounded size, or nothing when that exceeds 64 bits |
| BqntFormat.AlignUpFacts | crates/braidinfer-runtime/src/bqnt.rs:147-149 | the least aligned offset not below the given one |
| BqntFormat.MaskRounds | crates/braidinfer-runtime/src/bqnt.rs:147-149 | the mask form on 64-bit words is that rounding |
| BqntFormat.ParseEncodedEntry | crates/braidinfer-runtime/src/bqnt.rs:293-302 | a table entry reads back field by field |
| BqntFormat.EntryLayout | crates/braidinfer-runtime/src/bqnt.rs:293-302 | byte k of every field of an entry is the field's k-th base-256 digit at its fixed offset |
| BqntFormat.ParseEncodedHeader | crates/braidinfer-runtime/src/bqnt.rs:277-290 | the header is recognised and reads back |
| BqntFormat.HeaderLayout | crates/braidinfer-runtime/src/bqnt.rs:277-290 | the same for the header, with magic 0x544E5142 and version 1 |
| BqntWriter.WriteTensorKeepsInv | crates/braidinfer-runtime/src/bqnt.rs:181-249 | every tensor lies aligned behind the reserved table, in order, disjoint and byte for byte; writing one keeps the others |
| BqntWriter.FileWriter.WriteOne | crates/braidinfer-runtime/src/bqnt.rs:181-249 | in place with a file cursor, equal to the write on values; refuses exactly hash collisions |
| BqntWriter.FileWriter.FinishFile | crates/braidinfer-runtime/src/bqnt.rs:252-305 | in place, entry by entry, equal to the finished file on values |
| BqntReader.EntryCheckIsExact | crates/braidinfer-runtime/src/bqnt.rs:394-450 | the reader's checks of an entry pass exactly for entries well-formed in unbounded integers with a new hash |
| BqntReader.Open | crates/braidinfer-runtime/src/bqnt.rs:335-477 | for every byte string: accepted if and only if its bytes at the fixed offsets are as they should be; then the table lists every entry's fields as sums of its bytes, keyed by hash; otherwise the error names the first fault |
| BqntReader.WellFormedIsAcceptable | crates/braidinfer-runtime/src/bqnt.rs:335-477 | well-formedness of parsed fields and the byte-by-byte condition are the same |
| BqntReader.LookupFindsTensor | crates/braidinfer-runtime/src/bqnt.rs:716-751 | every entry of an accepted file is found under its hash; its bytes are in the file and have the unbounded packed size |
| BqntReader.TensorsClearOfTable | crates/braidinfer-runtime/src/bqnt.rs:376-382 | no tensor of an accepted file overlaps the table when the reserved region covers the table |
| BqntReader.CheckClearsTableIff | crates/braidinfer-runtime/src/bqnt.rs:376-450 | the reader's check of an entry keeps tensors clear of the table if and only if the reserved region covers it |
| BqntReader.DataSection | crates/braidinfer-runtime/src/bqnt.rs:772-786 | present exactly when there are tensors inside the file; starts with some tensor, ends with some tensor, and every tensor's slice of it equals its data |
| BqntRoundTrip.AcceptedIffReadable | crates/braidinfer-runtime/src/bqnt.rs:181-477 | the writer's file is accepted if and only if an entry was reserved, sizes and ranks are right and hashes are distinct |
| BqntRoundTrip.WrittenHeader | crates/braidinfer-runtime/src/bqnt.rs:268-290 | magic, version, counts and the place of the metadata byte by byte in the finished file |
| BqntRoundTrip.WrittenEntry | crates/braidinfer-runtime/src/bqnt.rs:293-302 | name hash, format code, dimensions, rank, offset and size of every tensor byte by byte in the finished file |
| BqntRoundTrip.NoRoomIsWasted | crates/braidinfer-runtime/src/bqnt.rs:221-249 | every tensor lies at the first 64 KiB boundary behind the one before it, the first one behind the reserved table |
| BqntRoundTrip.NothingElseIsWritten | crates/braidinfer-runtime/src/bqnt.rs:181-305 | behind the table every byte of the finished file that is in no tensor and not metadata is zero |
| BqntRoundTrip.RoundTrip | crates/braidinfer-runtime/src/bqnt.rs:181-477 | when the table fits the reserve every tensor is found with its dimensions, rank, format and data, 64 KiB aligned |
| BqntRoundTrip.RoundTripIff | crates/braidinfer-runtime/src/bqnt.rs:181-477 | whether or not it fits: a tensor comes back if and only if header and table agree with it wherever they lie over it |
| BqntRoundTrip.TableClearIffItFits | crates/braidinfer-runtime/src/bqnt.rs:221-305 | the table is clear of every nonempty tensor if and only if it fits the reserve or there is no nonempty tensor |
| BqntRoundTrip.MetadataRoundTrip | crates/braidinfer-runtime/src/bqnt.rs:268-290 | the header points at the metadata as written |
| BqntRoundTrip.WithinReservedCount | crates/braidinfer-runtime/src/bqnt.rs:221-233 | up to max_tensors tensors the table overwrites no tensor byte |
| BqntRoundTrip.TensorsDisjoint | crates/braidinfer-runtime/src/bqnt.rs:221-249 | tensor ranges are pairwise disjoint |
| BqntRoundTrip.LongTableOverwrites | crates/braidinfer-runtime/src/bqnt.rs:277-302 | every byte below the actual table end is the table's, whatever tensor was there |
| BqntRoundTrip.AcceptedAlthoughTableOverlaps | crates/braidinfer-runtime/src/bqnt.rs:376-382 | for any metadata, a concrete accepted file of 1365 tensors with different ASCII names whose table has destroyed its first tensor |
| BqntRoundTrip.NoTensorsIsRejected | crates/braidinfer-runtime/src/bqnt.rs:268-275 | a file without tensors is refused |
| Bf16.ConversionRounds | crates/braidinfer-runtime/src/quant.rs:203-207 | on bit patterns: round up above half, and at half when odd; the sign is kept |
| Bf16.RoundedIsNearest | crates/braidinfer-runtime/src/quant.rs:203-207 | the result is a nearest bf16 magnitude, and the even one of two |
| Bf16.ConversionRoundsTo | crates/braidinfer-runtime/src/quant.rs:203-207 | roundTiesToEven for both signs: a nearest finite bf16 number, and of two nearest ones the even one, unless it overflows |
| Bf16.ConversionRoundsInRange | crates/braidinfer-runtime/src/quant.rs:203-207 | on every f32 pattern whose value is in the finite bf16 range the conversion is roundTiesToEven |
| Bf16.RelativeError | crates/braidinfer-runtime/src/quant.rs:203-207 | rounding a normal number of either sign changes it by at most 2^-8 of itself |
| Bf16.ExactWhenBf16 | crates/braidinfer-runtime/src/quant.rs:203-211 | a number that is already bf16 is stored exactly |
| Bf16.KnownValues | crates/braidinfer-runtime/src/quant.rs:203-211 | the patterns of 1, -2, 1/2, 3.25 and -0 have these values |
| Nf4.Nf4IsNearest | crates/braidinfer-runtime/src/quant.rs:220-236 | for every real input the four probes find a nearest level |
| Nf4.LevelsAreFixed | crates/braidinfer-runtime/src/quant.rs:228-236 | every level is found again |
| Nf4.Nf4Error | crates/braidinfer-runtime/src/quant.rs:177-201 | inside [-1, 1] the level is at most 0.1519036 away |
| Quant.UnpackPacked | kernels/moe_expert_ops.h:63-76 | nibbles read at the kernel's offsets are the packed codes |
| Quantizer.Rnf4ElementError | crates/braidinfer-runtime/src/quant.rs:242-284 | with m the largest absolute value: error at most (h + 2^-8) * max(h * max(m, 1e-10), 1e-10), plus 2^-8 * 1e-10 when m is below 1e-10, with h = 0.1519036 |
| Quantizer.PcG32ElementError | crates/braidinfer-runtime/src/quant.rs:316-360 | for any lo and hi with the group between them: error at most (1/2 + 15/256) * max((hi - lo)/15, 1e-10) |
| Quantizer.SuchAConversionExists | crates/braidinfer-runtime/src/quant.rs:203-211 | a conversion that rounds every real of the finite range to a nearest bf16 number exists, and can be the program's on all f32 numbers |
| Quantizer.QuantizeRnf4Group | crates/braidinfer-runtime/src/quant.rs:242-284 | the 132 bytes are codes of nearest levels, scale, codes of what is left and its scale at their fixed places, and unpack to every weight within that bound |
| Quantizer.QuantizePcG32Group | crates/braidinfer-runtime/src/quant.rs:328-358 | the 20 bytes are nearest codes, lowest value and step at their fixed places, and unpack to every weight within that bound |
| Quantizer.QuantizeRow | crates/braidinfer-runtime/src/quant.rs:289-360 | every group of a row, the last partial one included, is laid out and unpacks so |
| Reduce.ButterflySums | kernels/rdna3_reduce.h:153-161 | after the sub-wave exchanges every lane holds the sum of all lanes |
| Reduce.Wave32Sums | kernels/rdna3_reduce.h:126-133 | every lane of a wave holds the sum of 32 |
| Reduce.BlockReduceSum256 | kernels/rdna3_reduce.h:179-195 | the block reduction is the sum of 256 |
| Sums.StridesCover | kernels/moe_expert_ops.h:60-61 | strided loops that start at consecutive indices cover every group exactly once |
| Gemv.LaneSum | kernels/moe_expert_ops.h:63-76 | a lane adds exactly the terms of its elements, none beyond the row's length |
| Gemv.ThreadSum | kernels/moe_expert_ops.h:60-77 | a thread adds its lane's share of every groups_per_block-th group |
| Gemv.ThreadsPerGroup | kernels/moe_expert_ops.h:43-48 | the largest power of two allowed by the block, the groups and the cap |
| Gemv.BlockRow | kernels/moe_expert_ops.h:57-89 | for every block size that is a multiple of 16, one row is the dot product with the dequantised row |
| Gemv.CoopGemv | kernels/moe_expert_ops.h:35-90 | for every grid, every row of the product is computed and nothing else is written |
| Gemv.CoopGemvFusedGateUp | kernels/moe_expert_ops.h:94-157 | gate rows always, up rows for grids of at least two; duplicates on odd grids agree; one block leaves up untouched; rows beyond the outputs stay as they were |
| Gemv.CoopWeightedAcc | kernels/moe_expert_ops.h:303-313 | every element is updated exactly once whatever the grid |
| Gemv.QuantisedDotError | kernels/moe_expert_ops.h:161-213 | the kernel's result on a quantised row differs from the unquantised dot product by at most each group's bound times its inputs, for any bounds the ranges of the groups justify |
| Watchdog.AbortIsJustified | crates/braidinfer-runtime/src/watchdog.rs:163-275 | over every trace an abort has evidence in the observations: seen running, force_exit sent at least grace ago, silence of at least no_progress before that and since |
| Watchdog.ForceExitIsJustified | crates/braidinfer-runtime/src/watchdog.rs:206-238 | force_exit goes out only to a kernel that was seen running and was then silent for at least no_progress |
| Watchdog.HasStartedIff | crates/braidinfer-runtime/src/watchdog.rs:177-207 | over every trace a kernel counts as started if and only if some poll saw no exit and a counter above the one of its last exit, or above zero |
| Watchdog.PollIsDecided | crates/braidinfer-runtime/src/watchdog.rs:163-275 | over every trace: force_exit is sent if and only if the kernel started, was silent for no_progress since its last sign of life and none was sent since; abort if and only if one was, grace has passed and the second look sees no change |
| Watchdog.FrozenKernelIsAborted | crates/braidinfer-runtime/src/watchdog.rs:163-275 | in every trace from registration: a kernel some poll saw running, that freezes after its last sign of life and is polled at most d apart, is aborted within no_progress + grace + 2d |
| Watchdog.WatchdogThread.PollAll | crates/braidinfer-runtime/src/watchdog.rs:163-275 | a round polls every entry in order; before an abort every GPU is told to exit |
| Watchdog.BeatsShowProgressIff | kernels/rdna3/rdna3_persistent.h:166-188 | a hundred beats show the host a larger counter if and only if the 32-bit count does not wrap meanwhile |
| Watchdog.BeatsShow | kernels/rdna3/rdna3_persistent.h:166-188 | after any number of beats from any count the host sees the first beat or the last multiple of a hundred of the wrapped count |
| Watchdog.RelaunchContinues | kernels/rdna3/rdna3_persistent.h:136-150 | a relaunched kernel counts on from the counter the host has seen and shows a larger one within a hundred beats |
| Watchdog.WrapLooksStalled | crates/braidinfer-runtime/src/watchdog.rs:163-275 | in every trace from registration: a kernel that beats on while its count wraps is taken by the host's polls to force-exit and then to the abort |
| Sharding.LoadIsEven | crates/braidinfer-runtime/src/moe_weights.rs:656-665 | every worker GPU gets the even share, the first ones one expert more |
| Sharding.Balanced | crates/braidinfer-runtime/src/moe_weights.rs:656-665 | loads differ by at most one |
| Sharding.SlotsDiffer | crates/braidinfer-runtime/src/moe_weights.rs:667-683 | experts of one GPU have different slots |
| Sharding.SlotIsRound | crates/braidinfer-runtime/src/moe_weights.rs:667-683 | the slot of expert e is e / n |
| Sharding.Deal | crates/braidinfer-runtime/src/moe_weights.rs:656-665 | expert e goes to GPU start + e mod n of the n eligible GPUs, with exact counts |
| Sharding.MapSlots | crates/braidinfer-runtime/src/moe_weights.rs:675-692 | a slot for exactly the GPU's own experts |
| Sharding.Distribute | crates/braidinfer-runtime/src/moe_weights.rs:656-768 | an error exactly for an out-of-range start GPU; else every expert's bytes of the packed tensor lie in that slot of that GPU, GPU 0 on the original buffer or not |
| Sharding.DistributeHalves | crates/braidinfer-runtime/src/moe_weights.rs:926-1060 | a layer with gate and up tensors of its own for every expert: an error exactly for an out-of-range start GPU or a missing tensor; else every expert's slot holds its gate bytes and behind them its up bytes |
| Sharding.BuildConfig | crates/braidinfer-runtime/src/moe_p2p.rs:803-858 | one layer: entries point at the slots of the GPU's experts, all others are null, more than 512 experts is an error |
| Sharding.BuildLayerConfigs | crates/braidinfer-runtime/src/moe_p2p.rs:803-858 | all layers: a configuration for exactly the layers with experts, an error exactly when one of them has too many |
| Sharding.OneOwner | crates/braidinfer-runtime/src/moe_p2p.rs:505-523 | as a consequence of the distribution: exactly one GPU owns an expert and its slot holds exactly that expert's bytes |
| Sharding.SlotMapsAgree | crates/braidinfer-runtime/src/moe_weights.rs:667-692 | distributing gate/up and down the same way gives equal slot maps |
| Sharding.LayerIsPlaced | crates/braidinfer-runtime/src/moe_weights.rs:656-768 | tensors distributed alike and configured GPU by GPU make up a placed layer |
| Sharding.ShardedSumIsUnsharded | crates/braidinfer-runtime/src/moe_weights.rs:898-1068 | what the GPUs add up over the non-null entries of their configurations, from the bytes in their own buffers, is the unsharded sum over all experts, for any contribution of an expert's bytes |
| Bf16Atomic.AtomicAddIsAFold | kernels/rdna3_memory.h:185-219 | for any threads and schedule each half is the fold of its completed updates in swap order, each update storing the rounded sum of the addend and the value the half stands for; every call made exactly one and returned the value it replaced |
| Bf16Atomic.FailedSwapMeansProgress | kernels/rdna3_memory.h:185-219 | a failed compare-and-swap means an update landed since the word was read |
| Bf16Atomic.StepsRunOut | kernels/rdna3_memory.h:185-219 | every step finishes a call or lowers the staleness |
| Bf16Atomic.SchedulesAreBounded | kernels/rdna3_memory.h:185-219 | whatever the scheduler does, the steps of unfinished calls are bounded |
| Bf16Atomic.EveryCallReturns | kernels/rdna3_memory.h:185-219 | from every reachable state all calls return within that bound |
| Bf16Atomic.SpliceHalves | kernels/rdna3_memory.h:209-213 | splicing one half leaves the other alone |
| Bf16Atomic.WideningKeepsValue | kernels/rdna3_memory.h:196-199 | the f32 word the addition receives has the value of the half |
| Bf16Atomic.EncodeRounds | kernels/rdna3_memory.h:196-207 | narrowing a sum that does not overflow is roundTiesToEven |
| Bf16Atomic.EncodeNarrows | kernels/rdna3_memory.h:200-208 | for every sum: roundTiesToEven, infinity from half a step above the largest number on, upper 16 bits of an infinity or a NaN, sign kept |

## Left out

- The gfx1100 memory model: fences, cache mappings, sleep and warm-up; shared words are sequentially consistent.
- Barrier variants V2, ASM and V4 and grid.sync, which are gated experiments.
- HIP streams, modules, peer access and device selection: only issue and completion of copies are kept.
- Floating-point rounding of sums, products and scales before they are stored; only the bf16 conversion is modelled. The f32 addition in the atomic add is a parameter.
- PagedKvWrite.WriteKeepsValid: the kernel that writes KV entries is not part of this model; a write is one store of an entry through the VRAM slot of a chunk.
- PagedKvHandles.AttachKeepsValid: the source's tests push handles and set the token count and positions themselves; the model does the three together.
- PagedKv.TokenLocation: KV entries are whole values; the strided layout of heads and layers inside a slot is only covered by KvLayout.RegionsTileTheChunk and KvLayout.RegionsAreInOrder.
- Aliasing of chunk records between in-place caches: a record is shared through its id in one map.
- Quantised chunk slots, staging buffers, content hashes, chunk generations and recurrent-state checkpoints.
- KvChunkMirror write-through, op profiling, trace dumps and timing.
- BqntRoundTrip.RoundTrip: the JSON name table inside the metadata and the name check against it in `tensor_data` are not modelled.
- BqntWriter.FileWriter.WriteOne: write errors of the file system are not modelled.
- Quantizer.QuantizeRow: one row at a time; rows are independent in the source, which runs them in parallel.
- Gemv.CoopGemv: blocks, threads and lanes are run one after the other, which exact arithmetic and disjoint outputs allow.
- Sharding.Distribute: one tensor at a time; gate/up and down use the same placement with their own strides, which Sharding.LayerIsPlaced joins.
- The quiesce delay, crash dump and process abort behind the watchdog's abort action.
- Sampling, generation, tokenizer, configuration, scripts and signal handling.
