# Synchronization validator bookkeeping

This project models the bookkeeping core of the Vulkan validation layers'
synchronization validator, `layers/sync/sync_validation.cpp`, and proves
properties of it. The model covers:

- the forward-only range generators (`MapRangesRangeGenerator`, `FilteredGeneratorGenerator`);
- the signalled-semaphore registry layered over a parent (`SignaledSemaphores`);
- the event wait classification and barrier accumulation (`SyncEventState`, `SyncEventsContext`);
- the tag line: global tag reservation, batch tag ranges, per-queue sync tags,
  command-buffer tag limits and the first-use ranges of a replayed recording;
- the batch access log (`BatchAccessLog`) with its `Trim` walk;
- the presented-image table of a swapchain and `SetupPresentInfo`;
- the fence wait table and the fence erasure of `vkQueueWaitIdle` / `vkDeviceWaitIdle`;
- the buffer ranges of indirect draws and dispatches;
- the attachment view generators (`AttachmentViewGen`).

Objects the source updates in place are classes with `modifies` clauses:

- the generators;
- `SignaledSemaphores`, `SyncEventsContext`, `QueueBatchContext` and `BatchAccessLog`;
- the swapchain and `SyncValidator`.

Each method is proved against a specification function, and the properties
are proved about those functions. Ranges are half-open over unbounded
naturals. A range map is a sorted sequence of disjoint, non-empty keys. Stage
and aspect masks are sets of bit positions. Handles are naturals, and shared
pointers that may be null are `Option`s.

The hazard checks of `AccessContext` and the access-state updates act on
state this model does not cover. They appear as predicates given to the
operations (`hazard`, `firstUseHazard`, `replayHazard`) or as the ranges
they would be applied to. Scope expansion from queue flags is an input in
the same way. The waits that `WaitForFence`, `vkQueueWaitIdle` and
`vkDeviceWaitIdle` apply to every queue batch are returned as values.

Modules, one per file: `SyncIds` (ids.dfy), `Ranges`, `Containers`,
`RangeGenerators` (generators.dfy), `Events`, `Presentation`, `Semaphores`,
`Validator`, `QueueBatches` (batches.dfy), `Replay`, `IndirectBuffer`
(indirect.dfy), `Attachments` and `AccessLog` (access_log.dfy).

## Model

| member | source | states |
|---|---|---|
| Containers.GetMappedOptional | layers/sync/sync_validation.cpp:31-39 | a value is returned exactly when the key is mapped, and it is the mapped value |
| Containers.GetMapped | layers/sync/sync_validation.cpp:40-44 | the mapped value when the key is present, otherwise the default |
| Ranges.Intersect | layers/sync/sync_validation.cpp:99-105 | `a & b` is non-empty exactly when the ranges intersect, is then [max begin, min end), and is otherwise the empty key |
| Ranges.IntersectContains | layers/sync/sync_validation.cpp:99-105 | a point lies in `a & b` iff it lies in both ranges |
| Ranges.LowerBound | layers/sync/sync_validation.cpp:106-109 | `lower_bound`: every earlier key ends at or before the point, and the key found ends after it |
| Ranges.AnyHazard | layers/sync/sync_validation.cpp:1668-1690 | some range has a hazard iff one of its elements satisfies the hazard predicate |
| RangeGenerators.IntersectingBlock | layers/sync/sync_validation.cpp:99-109 | in a sorted map the keys meeting a query are one block, and it starts at the seek position |
| RangeGenerators.MapRangesEmptyMeansEnd | layers/sync/sync_validation.cpp:90-109 | from the seek position on, `current_` is non-empty until the block ends; once it reads empty, no later key meets the query |
| RangeGenerators.MapRangesRangeGenerator.constructor | layers/sync/sync_validation.cpp:83-85 | the generator starts at `lower_bound(range)` with `current_ = range & key` |
| RangeGenerators.MapRangesRangeGenerator.SeekBegin | layers/sync/sync_validation.cpp:106-109 | seeks to `lower_bound(range)` and refreshes `current_` |
| RangeGenerators.MapRangesRangeGenerator.UpdateCurrent | layers/sync/sync_validation.cpp:99-105 | `current_` is the query met with the key under the cursor, or empty at the end |
| RangeGenerators.MapRangesRangeGenerator.Next | layers/sync/sync_validation.cpp:90-94 | steps one key, and successive non-empty outputs move strictly forward |
| RangeGenerators.MapRangesRangeGenerator.PredicatedIncrement | layers/sync/sync_validation.cpp:113-120 | steps at least once; every key skipped meets the query and fails the predicate; it stops at the end, at a key missing the query, or at one the predicate accepts |
| RangeGenerators.FastForwardFilterPos | layers/sync/sync_validation.cpp:184-200 | the walk-then-seek heuristic with `kRetryLimit = 2` reaches the first filter position, at or after the cursor, whose key ends after the range's begin |
| RangeGenerators.FastForwardFilter | layers/sync/sync_validation.cpp:184-200 | the loop reaches the position `FastForwardFilterPos` describes |
| RangeGenerators.FastForwardGenPos | layers/sync/sync_validation.cpp:204-211 | the walk reaches the first generated position, at or after the cursor, whose range ends after the begin |
| RangeGenerators.FastForwardGen | layers/sync/sync_validation.cpp:204-211 | the loop reaches the position `FastForwardGenPos` describes |
| RangeGenerators.AdvanceFilterCursor | layers/sync/sync_validation.cpp:164-171 | the filter steps by one and the generator moves to the first range ending after the new key's begin |
| RangeGenerators.AdvanceGenCursor | layers/sync/sync_validation.cpp:172-179 | the generator steps by one and the filter moves to the first key ending after the new range's begin |
| RangeGenerators.AsWrittenStart | layers/sync/sync_validation.cpp:213-222 | the written `SeekBegin` leaves both cursors in bounds |
| RangeGenerators.AsWrittenLoop | layers/sync/sync_validation.cpp:145-159 | the written loop, stale local ranges included, keeps the cursors in bounds whenever it does not increment past an end |
| RangeGenerators.AsWrittenLoopSound | layers/sync/sync_validation.cpp:149-157 | from any state whose local ranges were once read under some cursor, every non-empty range the written loop stops on is one generated range met with one filter key |
| RangeGenerators.PairForward | layers/sync/sync_validation.cpp:145-159 | intersections read at coordinatewise later, distinct positions of two sorted streams begin no earlier than the earlier one ends |
| RangeGenerators.AsWrittenLoopPositions | layers/sync/sync_validation.cpp:149-157 | the written loop, stale locals included, stops on a range read at positions at or after where it started, distinct from the previous output's, and at or before its final cursors |
| RangeGenerators.AsWrittenIncrementForward | layers/sync/sync_validation.cpp:145-159 | after the written `++`, the next non-empty range begins no earlier than the current one ends |
| RangeGenerators.AsWrittenIncrement | layers/sync/sync_validation.cpp:145-159 | `operator++` as written: the written loop started from the ranges under the cursors with `current_` empty. `None` means an increment past an end. Soundness and forward motion are proved by `AsWrittenIncrementSound` and `AsWrittenIncrementForward` |
| RangeGenerators.AsWrittenIncrementSound | layers/sync/sync_validation.cpp:145-159 | every non-empty range the written `++` yields is one generated range met with one filter key |
| RangeGenerators.FilteredGeneratorGenerator.constructor | layers/sync/sync_validation.cpp:139-141 | the written constructor's state is `AsWrittenStart` |
| RangeGenerators.FilteredGeneratorGenerator.AdvanceFilter | layers/sync/sync_validation.cpp:164-171 | moves the cursors as `AdvanceFilterCursor` and returns the new filter key |
| RangeGenerators.FilteredGeneratorGenerator.AdvanceGen | layers/sync/sync_validation.cpp:172-179 | moves the cursors as `AdvanceGenCursor` and returns the new generated range |
| RangeGenerators.FilteredGeneratorGenerator.Next | layers/sync/sync_validation.cpp:145-159 | the written `operator++` reaches the state `AsWrittenIncrement` describes; a non-empty output is still one generated range met with one filter key, read at or before the cursors, and successive non-empty outputs move strictly forward |
| RangeGenerators.Step | layers/sync/sync_validation.cpp:149-157 | one iteration keeps the cursors in bounds, moves neither back and moves one forward |
| RangeGenerators.Settle | layers/sync/sync_validation.cpp:149-157 | iterating stops in bounds, with an end reached or a non-empty intersection |
| RangeGenerators.Increment | layers/sync/sync_validation.cpp:145-159 | the corrected `++` ends settled, never moves back, and moves forward from a non-empty state |
| RangeGenerators.Start | layers/sync/sync_validation.cpp:213-222 | the corrected `SeekBegin` ends settled |
| RangeGenerators.AdvanceFilterKeepsAhead | layers/sync/sync_validation.cpp:150-152 | advancing the filter past a key that ends first loses no common point outside the current output |
| RangeGenerators.AdvanceGenKeepsAhead | layers/sync/sync_validation.cpp:153-155 | advancing the generator past a range that ends first loses no common point outside the current output |
| RangeGenerators.SettleAhead | layers/sync/sync_validation.cpp:149-157 | settling loses no common point |
| RangeGenerators.IncrementAhead | layers/sync/sync_validation.cpp:145-159 | after `++` the points still ahead are those ahead before, minus the output just passed |
| RangeGenerators.IncrementForward | layers/sync/sync_validation.cpp:145-159 | successive outputs of the corrected generator move strictly forward |
| RangeGenerators.Stream | layers/sync/sync_validation.cpp:145-159 | the outputs of the corrected generator from a state until it reads empty. `StreamSorted`, `StreamPairs` and `StreamCoversAhead` prove they are sorted, disjoint pair intersections covering exactly the common points ahead |
| RangeGenerators.StreamSorted | layers/sync/sync_validation.cpp:145-159 | the outputs from any state are sorted and disjoint, and none starts before the current one |
| RangeGenerators.StreamPairs | layers/sync/sync_validation.cpp:145-159 | every output is one generated range met with one filter key |
| RangeGenerators.StreamCoversAhead | layers/sync/sync_validation.cpp:145-159 | from a settled state, the outputs cover exactly the common points still ahead of both cursors |
| RangeGenerators.CorrectedGeneratorPartitions | layers/sync/sync_validation.cpp:139-159 | the corrected generator yields sorted, disjoint pair intersections whose union is exactly the intersection of the two streams |
| RangeGenerators.CorrectedFilteredGenerator.constructor | layers/sync/sync_validation.cpp:139-141 | the corrected constructor starts at `Start` with `current_` its intersection |
| RangeGenerators.CorrectedFilteredGenerator.AdvanceFilter | layers/sync/sync_validation.cpp:164-171 | moves the cursors as `AdvanceFilterCursor` |
| RangeGenerators.CorrectedFilteredGenerator.AdvanceGen | layers/sync/sync_validation.cpp:172-179 | moves the cursors as `AdvanceGenCursor` |
| RangeGenerators.CorrectedFilteredGenerator.Advance | layers/sync/sync_validation.cpp:149-157 | the corrected loop, which re-reads both ranges, reaches `Settle` |
| RangeGenerators.CorrectedFilteredGenerator.Next | layers/sync/sync_validation.cpp:145-159 | `++` drops exactly the current output from the remaining stream, and the next output starts no earlier than the previous one ends |
| RangeGenerators.AsWrittenStartMissesLaterIntersection | layers/sync/sync_validation.cpp:213-222 | on gen [0,5),[20,25) and filter [10,30), the written start reads empty, while [20,25) is common and the corrected start finds it |
| RangeGenerators.AsWrittenIncrementSkipsKey | layers/sync/sync_validation.cpp:145-159 | on filter [0,10),[20,30) and gen [2,4),[22,24), the written `++` ends after [2,4) without yielding [22,24), which the corrected one yields |
| RangeGenerators.AsWrittenIncrementPassesEnd | layers/sync/sync_validation.cpp:145-171 | on filter [0,10) and gen [2,4),[22,24), the written `++` increments the filter iterator at its end |
| Semaphores.SignalFromBatch | layers/sync/sync_validation.cpp:3895-3901 | a submit's signal names its semaphore, its batch, and the batch's queue with the exec scope |
| Semaphores.SignalFromAcquire | layers/sync/sync_validation.cpp:3903-3909 | for a presented image with a batch (asserted at 3907), an acquire's signal takes that batch, a default first scope, and the acquired image |
| Semaphores.Lookup | layers/sync/sync_validation.cpp:467 | the stored entry, or null when the semaphore is missing |
| Semaphores.GetPrevIn | layers/sync/sync_validation.cpp:3887-3893 | null without a parent, otherwise the parent's entry, one level up only |
| Semaphores.Current | layers/sync/sync_validation.cpp:461-467 | the signal a registry holds for a semaphore: its own entry when it has one, a null entry hiding the parent's, otherwise the parent's. `Inserted` and `ResolvedIsCurrent` are stated against it |
| Semaphores.Inserted | layers/sync/sync_validation.cpp:461-484 | succeeds iff no signal is current here or in the parent; then the new signal is current, else the current one stays; other semaphores are unaffected |
| Semaphores.Unsignaled | layers/sync/sync_validation.cpp:493-516 | returns the current signal, after which none is current; other semaphores are unaffected; without a parent the entry is erased, with one a null placeholder remains |
| Semaphores.Imported | layers/sync/sync_validation.cpp:541-549 | after `Import(sem, from)` a lookup of `sem` yields `from`; a null `from` erases the entry; others are unchanged |
| Semaphores.TrimmedStep | layers/sync/sync_validation.cpp:525-534 | each entry adds at most its own pending signal's batch to the trimmed batches |
| Semaphores.DoubleSignalFails | layers/sync/sync_validation.cpp:461-484 | a second signal without a wait fails and the first signal stays current |
| Semaphores.SignalWaitSignal | layers/sync/sync_validation.cpp:461-516 | a wait takes the pending signal, after which a new signal succeeds |
| Semaphores.ParentSignalBlocksInsert | layers/sync/sync_validation.cpp:465-475 | a signal the parent holds makes a child's insert fail, and the child keeps a copy of it |
| Semaphores.Resolved | layers/sync/sync_validation.cpp:518-549 | the parent after `Resolve`: each child entry overrides the parent's, and a null child entry erases it. `ResolvedIsCurrent` proves this is what the child held current |
| Semaphores.TrimmedBatches | layers/sync/sync_validation.cpp:525-537 | the batches of the child's pending signals other than the last batch; `TrimmedStep` builds it one entry at a time as the loop does |
| Semaphores.ResolvedStep | layers/sync/sync_validation.cpp:525-537 | importing one more child entry into the parent is resolving with that entry |
| Semaphores.ResolvedIsCurrent | layers/sync/sync_validation.cpp:518-549 | after `Resolve` the parent holds, for every semaphore, exactly the signal current in the child |
| Semaphores.WaitThenResolveErases | layers/sync/sync_validation.cpp:493-549 | a wait in the child on a parent's signal, once resolved, erases it from the parent |
| Semaphores.WellKeyedKept | layers/sync/sync_validation.cpp:461-549 | insert, unsignal, import and resolve keep every signal stored under its own semaphore |
| Semaphores.SignaledSemaphores.constructor | layers/sync/sync_validation.cpp:493-516 | an empty child of the given parent. The constructor is declared in the header `sync_validation.h`, which is not part of this model; the cited lines use the parent it stores |
| Semaphores.SignaledSemaphores.GetPrev | layers/sync/sync_validation.cpp:3887-3893 | the parent's entry for the semaphore, null without a parent |
| Semaphores.SignaledSemaphores.Insert | layers/sync/sync_validation.cpp:461-484 | the result and the new table are those of `Inserted`; the parent is not changed |
| Semaphores.SignaledSemaphores.SignalSemaphore | layers/sync/sync_validation.cpp:451-459 | inserts a submit's signal, with the outcome of `Inserted` |
| Semaphores.SignaledSemaphores.SignalSemaphoreOnAcquire | layers/sync/sync_validation.cpp:486-491 | for a presented image with a batch (asserted at 3907), inserts an acquire's signal, with the outcome of `Inserted` |
| Semaphores.SignaledSemaphores.Unsignal | layers/sync/sync_validation.cpp:493-516 | the signal taken and the new table are those of `Unsignaled`; the parent is not changed |
| Semaphores.SignaledSemaphores.Import | layers/sync/sync_validation.cpp:541-549 | the table becomes `Imported` |
| Semaphores.SignaledSemaphores.Reset | layers/sync/sync_validation.cpp:551-554 | the table is empty and the parent is detached |
| Semaphores.SignaledSemaphores.Resolve | layers/sync/sync_validation.cpp:518-539 | the parent's table becomes `Resolved` and its own parent is kept; the trimmed batches are those of the pending signals other than the last batch; the child is reset |
| Events.HasBarrier | layers/sync/sync_validation.cpp:2842-2845 | true iff the event has no command yet, the stage mask holds ALL_COMMANDS, or the barriers meet the scope or hold ALL_COMMANDS. `BarrierKeepsHasBarrier` proves a barrier never takes it away |
| Events.IsIgnoredByWaitAsWritten | layers/sync/sync_validation.cpp:2820-2840 | the written classification, reasons tried in source order, with a reset race only after `vkCmdResetEvent` or `vkCmdResetEvent2KHR`. `AsWrittenMissesCoreReset2` and `IgnoredAgreesBesidesCoreReset2` show it differs from the intended one only for core `vkCmdResetEvent2` |
| Events.IsIgnoredByWait | layers/sync/sync_validation.cpp:2820-2840 | the intended classification, which also treats core `vkCmdResetEvent2` as a reset. `IgnoreReasonPriority` and `NotIgnoredIff` characterise each reason |
| Events.AsWrittenMissesCoreReset2 | layers/sync/sync_validation.cpp:2826-2829 | an event last reset by core `vkCmdResetEvent2` with no barrier is classified "missing set event" as written, not a reset race |
| Events.IgnoredAgreesBesidesCoreReset2 | layers/sync/sync_validation.cpp:2820-2840 | the written and intended classifications agree for every other last command |
| Events.NotIgnoredIff | layers/sync/sync_validation.cpp:2820-2845 | a wait uses the event iff no earlier reason applies, a first scope is set, and the wait's source mask covers the set-event's mask |
| Events.IgnoreReasonPriority | layers/sync/sync_validation.cpp:2820-2845 | each reason is returned exactly when its own condition holds and no earlier one does |
| Events.WiderSourceMaskStaysNotIgnored | layers/sync/sync_validation.cpp:2831-2834 | naming more source stages never makes a used event ignored |
| Events.ResetFirstScope | layers/sync/sync_validation.cpp:2813-2817 | the first scope, its scope and tag are cleared, and the other fields are kept |
| Events.ResetFirstScopeIgnored | layers/sync/sync_validation.cpp:2813-2840 | after `ResetFirstScope` no wait uses the event |
| Events.BarrierOnlyWidens | layers/sync/sync_validation.cpp:3337-3349 | a barrier only ORs bits into `barriers`; a touched event gains the destination bits, and an untouched one is unchanged |
| Events.BarrierIdempotent | layers/sync/sync_validation.cpp:3337-3349 | applying a barrier twice is applying it once |
| Events.BarrierKeepsHasBarrier | layers/sync/sync_validation.cpp:2842-2845 | a barrier never takes away `HasBarrier` |
| Events.TaggedWaitClearsResetRace | layers/sync/sync_validation.cpp:3351-3356 | after a tagged wait, an event at or before the tag holds ALL_COMMANDS and reports no reset race |
| Events.EventsAfterBarrier | layers/sync/sync_validation.cpp:3337-3349 | applying a barrier to every event keeps the set of events |
| Events.EventsAfterBarrierProperties | layers/sync/sync_validation.cpp:3337-3349 | over all events: idempotent, no bit cleared, events it does not reach untouched |
| Events.SyncEventsContext.constructor | layers/sync/sync_validation.cpp:3337-3349 | no events. The constructor is in the header, which is not part of this model; the cited lines walk the map it starts empty |
| Events.SyncEventsContext.ApplyBarrier | layers/sync/sync_validation.cpp:3337-3349 | the in-place loop leaves the events as `EventsAfterBarrier` |
| Events.SyncEventsContext.ApplyTaggedWait | layers/sync/sync_validation.cpp:3351-3356 | the barrier from ALL_COMMANDS to ALL_COMMANDS; every event not after the tag then has a barrier |
| Validator.FenceOfSubmit | layers/sync/sync_validation.cpp:4162-4163 | a submit fence records its queue and tag, with no acquired image |
| Validator.FenceOfAcquire | layers/sync/sync_validation.cpp:4164-4165 | an acquire fence has the invalid queue and records the acquired image |
| Validator.WaitOf | layers/sync/sync_validation.cpp:340-346 | a tagged wait iff no acquired image, otherwise an acquire wait on it |
| Validator.AfterQueueIdle | layers/sync/sync_validation.cpp:2976-2977 | the waitable fences left after `vkQueueWaitIdle` on a queue; `QueueIdleErasesItsFences` proves it drops exactly that queue's fences |
| Validator.AfterDeviceIdle | layers/sync/sync_validation.cpp:2987-2988 | the waitable fences left after `vkDeviceWaitIdle`; `DeviceIdleKeepsAcquires` proves it keeps exactly the acquire fences |
| Validator.Reserve | layers/sync/sync_validation.cpp:282-287 | the range `ReserveGlobalTagRange` returns and the counter after it; `ReservationsAdjacent` proves successive ones adjacent and of the sizes asked |
| Validator.QueueIdleErasesItsFences | layers/sync/sync_validation.cpp:2976-2977 | `vkQueueWaitIdle` erases exactly the fences of that queue and keeps the rest unchanged |
| Validator.DeviceIdleKeepsAcquires | layers/sync/sync_validation.cpp:2987-2988 | `vkDeviceWaitIdle` keeps exactly the fences whose wait is an acquire wait |
| Validator.QueueIdleKeepsAcquireFence | layers/sync/sync_validation.cpp:2977 | an acquire fence survives any queue's idle wait |
| Validator.ReservationsAdjacent | layers/sync/sync_validation.cpp:282-287 | successive reservations are adjacent and disjoint, each of the requested size, and the counter advances by their sum |
| Validator.SyncValidator.constructor | layers/sync/sync_validation.cpp:282-287 | the tag counter starts at 0 with no waitable fences. The member initialisers are in the header, which is not part of this model; the cited lines advance that counter |
| Validator.SyncValidator.ReserveGlobalTagRange | layers/sync/sync_validation.cpp:282-287 | hands out [limit, limit + n) and advances the counter to its end |
| Validator.SyncValidator.UpdateFenceWaitInfo | layers/sync/sync_validation.cpp:330-333 | records the wait for a live fence and ignores a dead one |
| Validator.SyncValidator.WaitForFence | layers/sync/sync_validation.cpp:335-349 | returns the fence's wait (`WaitOf`) if waitable; afterwards the fence is not waitable |
| Validator.SyncValidator.QueueWaitIdle | layers/sync/sync_validation.cpp:2967-2978 | on success for a known queue: a wait for that queue up to `kMaxIndex`, and its fences erased; otherwise nothing |
| Validator.SyncValidator.DeviceWaitIdle | layers/sync/sync_validation.cpp:2980-2989 | a wait for any queue up to `kMaxIndex`, and only acquire fences are kept |
| QueueBatches.PointwiseMax | layers/sync/sync_validation.cpp:3644-3651 | the per-queue sync tags after an import, of the same length; `PointwiseMaxIsJoin` proves it is their least upper bound |
| QueueBatches.PointwiseMaxIsJoin | layers/sync/sync_validation.cpp:3644-3651 | the imported sync tags are the least upper bound of both |
| QueueBatches.PointwiseMaxLaws | layers/sync/sync_validation.cpp:3644-3651 | importing is commutative, associative and idempotent |
| QueueBatches.OwnSyncTag | layers/sync/sync_validation.cpp:3855-3860 | only the batch's own queue slot changes, and only when it is in range; it becomes the range's end |
| QueueBatches.TagLimitSum | layers/sync/sync_validation.cpp:3792-3797 | the tags the known command buffers of a submit need; `KnownCommandBuffersSum` equates it with the listed limits |
| QueueBatches.KnownCommandBuffers | layers/sync/sync_validation.cpp:3792-3797 | the `(index, tag limit)` list of known command buffers; `KnownCommandBuffersIndexed` and `KnownCommandBuffersComplete` prove it is indexed, ordered and complete |
| QueueBatches.KnownCommandBuffersIndexed | layers/sync/sync_validation.cpp:3792-3797 | each listed command buffer carries its own index and tag limit, in increasing index order |
| QueueBatches.KnownCommandBuffersComplete | layers/sync/sync_validation.cpp:3792-3797 | every known command buffer is listed |
| QueueBatches.KnownCommandBuffersSum | layers/sync/sync_validation.cpp:3792-3797 | the tags added equal the listed command buffers' tag limits |
| QueueBatches.QueueBatchContext.constructor | layers/sync/sync_validation.cpp:3375-3392 | an empty tag range at 0, a zero sync tag per queue, and no command buffers |
| QueueBatches.QueueBatchContext.GetQueueId | layers/sync/sync_validation.cpp:3823-3826 | the queue's id, or `kQueueIdInvalid` without a queue |
| QueueBatches.QueueBatchContext.SetTagBias | layers/sync/sync_validation.cpp:3848-3861 | the range keeps its size and starts at the bias; the bias and start tag are set; only the own queue slot's sync tag moves, to the new end |
| QueueBatches.QueueBatchContext.SetupBatchTags | layers/sync/sync_validation.cpp:3836-3840 | the tag range moves onto freshly reserved global tags of its size, and the counter ends at its end |
| QueueBatches.QueueBatchContext.SetupBatchTagsFor | layers/sync/sync_validation.cpp:3829-3832 | a given range is placed on freshly reserved global tags of its size |
| QueueBatches.QueueBatchContext.ImportSyncTags | layers/sync/sync_validation.cpp:3644-3651 | the sync tags become the pointwise maximum; the tag range, bias, access start tag and command buffers are unchanged |
| QueueBatches.QueueBatchContext.SetupCommandBufferInfo | layers/sync/sync_validation.cpp:3786-3799 | the range end grows by the known command buffers' tag limits, which are appended in submit order; sync tags, bias and access start tag are unchanged |
| QueueBatches.QueueBatchContext.ApplyTaggedWait | layers/sync/sync_validation.cpp:3436-3439 | the events get the tagged wait iff the batch has a queue and the wait is for it or for any queue |
| QueueBatches.SetupTwoBatches | layers/sync/sync_validation.cpp:3836-3840 | two batches set up in turn get adjacent global ranges of their own sizes |
| Replay.FirstUseRanges | layers/sync/sync_validation.cpp:255-279 | the ranges `ValidateFirstUse` checks, from tag 0; `FirstUseCoversAllButSyncOps` proves they cover every tag below `kMaxIndex` except the sync ops' own |
| Replay.FirstUseFrom | layers/sync/sync_validation.cpp:259-276 | one range more than sync ops, from the start up to `kMaxIndex` |
| Replay.FirstUseFromCovers | layers/sync/sync_validation.cpp:259-276 | the ranges from a start cover exactly the tags from it below `kMaxIndex` that are not sync-op tags |
| Replay.FirstUseCoversAllButSyncOps | layers/sync/sync_validation.cpp:255-279 | the first-use ranges cover every tag below `kMaxIndex` except the sync ops' own tags |
| Replay.FirstUseFromOrdered | layers/sync/sync_validation.cpp:263-271 | the i-th range ends at the i-th sync op and the next one starts just after it |
| Replay.FirstUseRangeAt | layers/sync/sync_validation.cpp:259-275 | the i-th range is [previous op + 1, i-th op), the last one ending at `kMaxIndex` |
| Replay.AnyReplayHazard | layers/sync/sync_validation.cpp:267 | some replayed sync op reports iff one of them does |
| Replay.ValidateFirstUse | layers/sync/sync_validation.cpp:255-279 | checks exactly the first-use ranges, replays each op at `base_tag_ + tag`, and reports a hazard iff a range or a replayed op has one; nothing when not valid for sync ops |
| IndirectBuffer.DrawOffsetAsWritten | layers/sync/sync_validation.cpp:1680 | the written offset lies in [offset, offset + 2^32), and equals the 64-bit one when the product fits |
| IndirectBuffer.DrawRange | layers/sync/sync_validation.cpp:1705 | the i-th structure's bytes start at `offset + i*stride` with the structure's size |
| IndirectBuffer.RecordedRangesAsWritten | layers/sync/sync_validation.cpp:1694-1710 | one fused range when packed, otherwise one per draw, even for no draws |
| IndirectBuffer.AccessRanges | layers/sync/sync_validation.cpp:1663-1690 | none for no draws, one fused range when packed, else one per draw |
| IndirectBuffer.PackedTiles | layers/sync/sync_validation.cpp:1668-1670 | with stride equal to size the structures tile the fused range without gaps |
| IndirectBuffer.AccessRangesCoverDraws | layers/sync/sync_validation.cpp:1663-1690 | the ranges, fused or not, cover exactly the bytes of the draws' structures |
| IndirectBuffer.AsWrittenRecordsZeroDraws | layers/sync/sync_validation.cpp:1694-1702 | with no draws the written record path still records a structure |
| IndirectBuffer.AsWrittenDrawOffsetWraps | layers/sync/sync_validation.cpp:1680 | the draw at 0x10000 with stride 0x10000 lands on offset 0 instead of 2^32 |
| IndirectBuffer.AsWrittenAgreesWithoutWrap | layers/sync/sync_validation.cpp:1694-1710 | apart from those two defects the written record path records the intended ranges |
| IndirectBuffer.ValidateIndirectBuffer | layers/sync/sync_validation.cpp:1659-1692 | reports iff some intended range has a hazard; checks a prefix of the ranges and stops at the first hazard |
| IndirectBuffer.AnyHazardPrefix | layers/sync/sync_validation.cpp:1679-1689 | a hazard in a prefix is a hazard in the whole |
| IndirectBuffer.RecordIndirectBuffer | layers/sync/sync_validation.cpp:1694-1710 | records exactly the intended ranges |
| Attachments.MakeAttachmentViewGen | layers/sync/sync_validation.cpp:3287-3301 | full-view and render-area generators always; depth-only (stencil-only) iff the view has that aspect and another |
| Attachments.AspectOf | layers/sync/sync_validation.cpp:3293-3297 | `mask & bit` is the bit when set, else empty |
| Attachments.GetRangeGen | layers/sync/sync_validation.cpp:3303-3314 | a depth-only (stencil-only) request on a view with only that aspect is served by the render-area generator; availability is proved by `GetRangeGenAvailable` |
| Attachments.GetDepthStencilRenderAreaGenType | layers/sync/sync_validation.cpp:3316-3334 | requires the source's aspect asserts: both operations choose the render area, one operation its own aspect's part. `DepthStencilGenCoversTouched` proves the choice walks exactly the touched aspects |
| Attachments.GetRangeGenAvailable | layers/sync/sync_validation.cpp:3303-3314 | a depth-only (stencil-only) generator is available iff the view has that aspect; the others always are |
| Attachments.DepthStencilGenCoversTouched | layers/sync/sync_validation.cpp:3303-3334 | the generator chosen for an operation walks the render area over exactly the aspects it touches |
| Presentation.SwapchainImage | layers/sync/sync_validation.cpp:4088 | an image iff the index is in range |
| Presentation.MovedFrom | layers/sync/sync_validation.cpp:4147 | a moved-from record holds nothing and keeps its integers |
| Presentation.SetImage | layers/sync/sync_validation.cpp:4083-4095 | sets the index; looks the image up only when the swapchain is live; nothing else changes |
| Presentation.MakePresented | layers/sync/sync_validation.cpp:4061-4066 | a record is valid iff its swapchain is live and has an image at the index |
| Presentation.FreshPresented | layers/sync/sync_validation.cpp:4068-4072 | a fresh record has `kInvalidTag`, the swapchain's image at the index, and no batch |
| Presentation.PresentedPrefix | layers/sync/sync_validation.cpp:3043-3050 | the presented images of the first `n` entries of a present, at most `n` of them; `PresentedPrefixTags`, `PresentedPrefixOrdered` and `PresentedPrefixComplete` characterise them |
| Presentation.PresentedPrefixStep | layers/sync/sync_validation.cpp:3043-3050 | each entry keeps the earlier records and adds its own only when valid |
| Presentation.PresentedPrefixTags | layers/sync/sync_validation.cpp:3043-3050 | each record's tag is its position and each is valid and from its own entry |
| Presentation.PresentedPrefixOrdered | layers/sync/sync_validation.cpp:3043-3050 | records keep the entries' order |
| Presentation.PresentedPrefixComplete | layers/sync/sync_validation.cpp:3043-3050 | an entry is kept iff its swapchain is live with an image at the index |
| Presentation.SetupPresentInfo | layers/sync/sync_validation.cpp:3035-3054 | builds the records `PresentedPrefix` describes, and the tag range is [0, count) |
| Presentation.Grown | layers/sync/sync_validation.cpp:4138 | `resize` keeps earlier slots and fills new ones with empty records |
| Presentation.Recorded | layers/sync/sync_validation.cpp:4135-4142 | the table after `RecordPresentedImage`; `RecordedSlots` proves the slot is set, the table grows only that far, and the rest is kept |
| Presentation.RecordedSlots | layers/sync/sync_validation.cpp:4135-4142 | a record lands in its image index's slot; the table grows only that far; other slots are kept |
| Presentation.MovedOut | layers/sync/sync_validation.cpp:4145-4154 | the record taken by `MovePresentedImage` and the table after it; `MovedOutSlots` proves what is returned and that the slot is emptied |
| Presentation.MovedOutSlots | layers/sync/sync_validation.cpp:4145-4154 | moving out returns a stored valid record, or else a fresh one; the slot is emptied and others are kept |
| Presentation.RecordThenMove | layers/sync/sync_validation.cpp:4135-4154 | an acquire returns the last present's record, and a second acquire finds none |
| Presentation.IndexedPreserved | layers/sync/sync_validation.cpp:4135-4154 | the table keeps each record in its own index's slot, and an acquire returns a record for the index asked |
| Presentation.Acquired | layers/sync/sync_validation.cpp:4156-4160 | an acquired image takes the presented image and tag, and the acquire tag |
| Presentation.Swapchain.constructor | layers/sync/sync_validation.cpp:4131-4133 | an empty presented table |
| Presentation.Swapchain.RecordPresentedImage | layers/sync/sync_validation.cpp:4135-4142 | the table becomes `Recorded` and stays indexed |
| Presentation.Swapchain.MovePresentedImage | layers/sync/sync_validation.cpp:4145-4154 | the record and table are those of `MovedOut`, for the index asked |
| AccessLog.MapLowerBound | layers/sync/sync_validation.cpp:4044 | `lower_bound`: the position of the first entry ending after the tag; `MapLowerBoundBounds` proves both directions |
| AccessLog.Find | layers/sync/sync_validation.cpp:4044 | a found entry belongs to the map and includes the tag |
| AccessLog.FindExact | layers/sync/sync_validation.cpp:4044 | in a sorted map `find` returns exactly the entry whose range includes the tag |
| AccessLog.Inserted | layers/sync/sync_validation.cpp:3973 | `insert` adds the pair exactly when it can, else leaves the map unchanged |
| AccessLog.CanInsert | layers/sync/sync_validation.cpp:3973 | the `insert` guard: a non-empty key that does not meet the entry at `lower_bound`; `CanInsertIff` proves it means no key meets it |
| AccessLog.CanInsertIff | layers/sync/sync_validation.cpp:3973 | in a sorted map an insert succeeds iff the key is non-empty and meets no existing key |
| AccessLog.InsertedSorted | layers/sync/sync_validation.cpp:3973 | insertion keeps the map sorted |
| AccessLog.InsertedFind | layers/sync/sync_validation.cpp:3973 | after an insert a tag finds the new entry if it was added and includes the tag, otherwise what it found before |
| AccessLog.SubmitLogRecord | layers/sync/sync_validation.cpp:4053-4058 | valid iff the tag is at or after the bias, the log exists and the index is in range; then it is the entry at `tag - bias` |
| AccessLog.Lookup | layers/sync/sync_validation.cpp:4043-4051 | a valid record comes from the entry found for the tag |
| AccessLog.ImportThenLookup | layers/sync/sync_validation.cpp:3969-4058 | after importing a recording, each of its tags looks up its own usage entry |
| AccessLog.ImportAll | layers/sync/sync_validation.cpp:3977-3981 | the map after importing another one entry by entry; `ImportAllKeeps` proves it stays sorted and keeps existing lookups |
| AccessLog.ImportAllKeeps | layers/sync/sync_validation.cpp:3977-3981 | importing another log keeps the map sorted and never changes what a mapped tag finds |
| AccessLog.Trimmed | layers/sync/sync_validation.cpp:4009-4041 | the entries `Trim` keeps, no more than there were; `TrimmedMembers`, `TrimmedSorted` and `TrimmedKeepsUsedLookups` characterise them |
| AccessLog.TrimmedMembers | layers/sync/sync_validation.cpp:4009-4041 | the trimmed map holds exactly the original entries that contain a used tag |
| AccessLog.TrimmedSorted | layers/sync/sync_validation.cpp:4009-4041 | trimming keeps the map sorted |
| AccessLog.TrimmedKeepsUsedLookups | layers/sync/sync_validation.cpp:4009-4041 | every used tag finds the same entry after trimming |
| AccessLog.TrimRest | layers/sync/sync_validation.cpp:4016-4018 | with the tags used up, the rest of the map is unreferenced |
| AccessLog.TrimSkip | layers/sync/sync_validation.cpp:4026-4030 | the entries erased up to `lower_bound(tag)` hold no used tag |
| AccessLog.TrimKeep | layers/sync/sync_validation.cpp:4031-4037 | an entry holding the current tag is kept |
| AccessLog.BatchAccessLog.constructor | layers/sync/sync_validation.cpp:3969-3986 | an empty map. The constructor is in the header, which is not part of this model; the cited lines fill the map it starts with |
| AccessLog.BatchAccessLog.ImportSubmit | layers/sync/sync_validation.cpp:3969-3975 | maps [bias, bias + recording size) to the recording when that key is free, returns the range's end, and stays sorted |
| AccessLog.BatchAccessLog.Insert | layers/sync/sync_validation.cpp:3983-3986 | inserts the pair as `insert` does and stays sorted |
| AccessLog.BatchAccessLog.ImportLog | layers/sync/sync_validation.cpp:3977-3981 | inserts every entry of the other map in order |
| AccessLog.BatchAccessLog.Trim | layers/sync/sync_validation.cpp:4009-4041 | the parallel walk leaves exactly the referenced entries, in order, unchanged (`Trimmed`) |

## Left out

- The `PreCallValidate*`, `PreCallRecord*` and `PostCallRecord*` entry points are left out. They look up handles and route to `DetectHazard`, `UpdateAccessState` and `LogError`. The exceptions are the bookkeeping of `PostCallRecordQueueWaitIdle` and `PostCallRecordDeviceWaitIdle`.
- The internals of `AccessContext`, `ResourceAccessState`, `SyncBarrier`, `ImageRangeGen` and scope expansion are not part of this model. Hazard checks are given as predicates, and updates are represented by the ranges they touch.
- `LogError` is modelled as reporting: `skip` is whether a hazard was found.
- `ApplyTaggedWait` / `ApplyAcquireWait` on the access state and `QueueBatchContext::Trim` are not modelled. Waits are returned as values; only the event part of a tagged wait is applied.
- The debug `assert`s of `CBSubmitLog::operator[]` yield the null record. The `assert(false)` of `BatchAccessLog::operator[]` does too.
- Asserts that non-null pointers are non-null hold by construction: an id or a datatype value is never null. Asserts on values become preconditions. For example, `SignalFromAcquire` and `SignalSemaphoreOnAcquire` require the presented image to have a batch (line 3907), and `GetDepthStencilRenderAreaGenType` requires the aspect asserts of lines 3318-3332.
- GetDepthStencilRenderAreaGenType: the `assert(IsValid())` at line 3317, which says the view is not null, has no counterpart. The view itself is not part of this model, only its aspect mask.
- Render-pass replay, opaque image addresses, diagnostics formatting, `TlsGuard`, atomics and `shared_ptr` / `weak_ptr` lifetime are left out.
  - The atomic `fetch_add` is a plain counter.
  - Shared pointers are values or `Option`s.
- `ValidateCountBuffer` / `RecordCountBuffer` are not part of this model. Neither is the call plumbing of the dispatch and draw entry points.
- `PresentedImage::ExportToSwapchain` only forwards to `RecordPresentedImage` for a live swapchain, and is not modelled on its own.
- The range map's `insert` is modelled without replacement: a pair whose key overlaps an existing key, or is empty, is not added. The range-map header is not part of this model.
- The tags and the global counter are unbounded naturals, so the 64-bit wrap-around is not modelled. The 32-bit product in the indirect offsets matters, and it is modelled as written only by `DrawOffsetAsWritten` and `RecordedRangesAsWritten`.
- IndirectBuffer.ValidateIndirectBuffer: models the corrected lines 1659-1692, with the per-draw offsets computed with the full 64-bit product. The offsets as written are `DrawOffsetAsWritten`.
- IndirectBuffer.RecordIndirectBuffer: models the corrected lines 1694-1710, with the zero-draw early return and the 64-bit product. The ranges recorded as written are `RecordedRangesAsWritten`.
- `ValidateFirstUse`, `Replay.FirstUseFromCovers`: the sync ops are taken to be recorded at strictly increasing tags below `kMaxIndex`, as recording guarantees.
- `GetTagLimit()` of a recording is taken to be the length of its access log.
- Container iteration order is not modelled:
  - `Resolve` and `ApplyBarrier` visit the map entries in an arbitrary order, and their results do not depend on the order;
  - the used-tag set of `Trim` is a strictly increasing sequence.
- The wrapped generator of `FilteredGeneratorGenerator` is a sorted stream of disjoint, non-empty ranges with a cursor, because its type is a template parameter.
- RangeGenerators.MapRangesRangeGenerator.Next, RangeGenerators.MapRangesRangeGenerator.PredicatedIncrement: require the cursor not to be at the end, since incrementing the end iterator is undefined in the source.
- RangeGenerators.FilteredGeneratorGenerator.Next: requires that the written loop not increment an iterator at its end (undefined); `AsWrittenIncrementPassesEnd` exhibits such an input.
- The default constructors of both generators are not modelled (they are never advanced).

## Findings

| source | as written | input that shows it | evidently intended | confidence | as-written member | corrected member |
|---|---|---|---|---|---|---|
| layers/sync/sync_validation.cpp:213-222 | `SeekBegin` stops on the first generated range even when it misses the filter key found, so `current_` reads empty (the end) | gen [0,5),[20,25); filter [10,30): the start reads empty, though [20,25) is common | advance until the first non-empty intersection, as `operator++` does | high, not executed | RangeGenerators.AsWrittenStartMissesLaterIntersection | RangeGenerators.CorrectedGeneratorPartitions |
| layers/sync/sync_validation.cpp:149-157 | after `AdvanceGen` fast-forwards `filter_pos_`, the local `filter_range` is stale; the next `AdvanceFilter` skips a key, and near the end it increments the end iterator | filter [0,10),[20,30); gen [2,4),[22,24): yields [2,4) then ends, missing [22,24). Filter [0,10) with the same gen: `++filter_pos_` at the end | re-read both ranges after each advance | high, not executed | RangeGenerators.AsWrittenIncrementSkipsKey | RangeGenerators.CorrectedFilteredGenerator.Next |
| layers/sync/sync_validation.cpp:1680 | `offset + i * stride` multiplies two `uint32_t`, so the product wraps modulo 2^32 before widening (also line 1705) | offset 0, stride 0x10000, i 0x10000: reads at 0 instead of 2^32 | a 64-bit product | high, not executed | IndirectBuffer.AsWrittenDrawOffsetWraps | IndirectBuffer.AccessRangesCoverDraws |
| layers/sync/sync_validation.cpp:2826 | the reset-race check names `vkCmdResetEvent` and `vkCmdResetEvent2KHR` but not core `vkCmdResetEvent2` | an event last reset by `vkCmdResetEvent2`, no barrier, waited by `vkCmdWaitEvents2`: "missing set event" instead of `Reset2WaitRace` | both synchronization2 reset commands | medium, not executed | Events.AsWrittenMissesCoreReset2 | Events.IgnoreReasonPriority |
| layers/sync/sync_validation.cpp:1694-1702 | `RecordIndirectBuffer` has no early return for `drawCount == 0`, unlike `ValidateIndirectBuffer`. `vkCmdDrawIndexedIndirect` (lines 1917-1930) calls it without checking | drawCount 0, struct size 20, stride 20: a 20-byte read is recorded | record nothing for no draws | low-medium, not executed | IndirectBuffer.AsWrittenRecordsZeroDraws | IndirectBuffer.RecordIndirectBuffer |
