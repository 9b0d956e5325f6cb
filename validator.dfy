/** The device-wide state of the synchronization validator that this model
    covers: the global tag counter (`ReserveGlobalTagRange`) and the table of
    waitable fences (`UpdateFenceWaitInfo`, `WaitForFence`, and the fence
    erasure of `vkQueueWaitIdle` / `vkDeviceWaitIdle`). The waits themselves
    act on every queue batch context, whose access state is not part of this
    model, so the operations return the wait they apply. */
module Validator {
  import opened Ranges
  import opened SyncIds
  import opened Presentation
  import opened Containers

  /** `AcquiredImage()`: no image. */
  const NoAcquire := AcquiredImage(None, InvalidTag, InvalidTag)

  /** `FenceSyncState`: the fence, the tag and queue it waits for, and for a
      fence signalled by an image acquire, the acquired image. */
  datatype FenceSyncState = FenceSyncState(fence: FenceId, tag: Tag, queueId: QueueId, acquired: AcquiredImage)

  /** `FenceSyncState(fence, queue_id, tag)`: a fence of a queue submit. */
  function FenceOfSubmit(fence: FenceId, queueId: QueueId, tag: Tag): (r: FenceSyncState)
    ensures r.fence == fence && r.queueId == queueId && r.tag == tag && AcquiredInvalid(r.acquired)
  {
    FenceSyncState(fence, tag, queueId, NoAcquire)
  }

  /** `FenceSyncState(fence, image, tag)`: a fence of an image acquire, which
      belongs to no queue. */
  function FenceOfAcquire(fence: FenceId, image: PresentedImage, tag: Tag): (r: FenceSyncState)
    ensures r.fence == fence && r.queueId == QueueIdInvalid && r.tag == tag && r.acquired == Acquired(image, tag)
  {
    FenceSyncState(fence, tag, QueueIdInvalid, Acquired(image, tag))
  }

  /** The wait a signalled fence stands for. */
  datatype FenceWait =
    | TaggedWait(queueId: QueueId, tag: Tag)   // `ApplyTaggedWait(queue_id, tag)` on every batch
    | AcquireWait(acquired: AcquiredImage)     // `ApplyAcquireWait(acquired)` on every batch

  /** What waiting for a fence applies: a tagged wait for a submit fence, an
      acquire wait for an acquire fence. */
  function WaitOf(info: FenceSyncState): (w: FenceWait)
    ensures w.TaggedWait? <==> AcquiredInvalid(info.acquired)
    ensures w.TaggedWait? ==> w == TaggedWait(info.queueId, info.tag)
    ensures w.AcquireWait? ==> w.acquired == info.acquired
  {
    if AcquiredInvalid(info.acquired) then TaggedWait(info.queueId, info.tag) else AcquireWait(info.acquired)
  }

  /** The waitable fences after `vkQueueWaitIdle` on `queueId`. */
  function AfterQueueIdle(fences: map<FenceId, FenceSyncState>, queueId: QueueId): map<FenceId, FenceSyncState> {
    map f | f in fences && fences[f].queueId != queueId :: fences[f]
  }

  /** The waitable fences after `vkDeviceWaitIdle`. */
  function AfterDeviceIdle(fences: map<FenceId, FenceSyncState>): map<FenceId, FenceSyncState> {
    map f | f in fences && !AcquiredInvalid(fences[f].acquired) :: fences[f]
  }

  /** `vkQueueWaitIdle` erases exactly the fences of that queue. */
  lemma QueueIdleErasesItsFences(fences: map<FenceId, FenceSyncState>, queueId: QueueId, f: FenceId)
    ensures f in AfterQueueIdle(fences, queueId) <==> f in fences && fences[f].queueId != queueId
    ensures f in AfterQueueIdle(fences, queueId) ==> AfterQueueIdle(fences, queueId)[f] == fences[f]
  {
  }

  /** `vkDeviceWaitIdle` moots every fence wait except those of image acquires. */
  lemma DeviceIdleKeepsAcquires(fences: map<FenceId, FenceSyncState>, f: FenceId)
    ensures f in AfterDeviceIdle(fences) <==> f in fences && WaitOf(fences[f]).AcquireWait?
    ensures f in AfterDeviceIdle(fences) ==> AfterDeviceIdle(fences)[f] == fences[f]
  {
  }

  /** An acquire fence waits on the present engine, not on a queue: waiting a
      queue idle never erases it. */
  lemma QueueIdleKeepsAcquireFence(fences: map<FenceId, FenceSyncState>, queueId: QueueId, f: FenceId, image: PresentedImage, tag: Tag)
    requires queueId != QueueIdInvalid
    requires f in fences && fences[f] == FenceOfAcquire(f, image, tag)
    ensures f in AfterQueueIdle(fences, queueId) && f in AfterDeviceIdle(fences) <==> image.image.Some?
    ensures f in AfterQueueIdle(fences, queueId)
  {
  }

  /** `(begin, end)` of `ReserveGlobalTagRange(count)` and the counter after it. */
  datatype Reservation = Reservation(range: Range, limit: Tag)

  function Reserve(limit: Tag, count: nat): Reservation {
    Reservation(Range(limit, limit + count), limit + count)
  }

  /** Successive reservations hand out adjacent, disjoint ranges of exactly
      the sizes asked for, each starting where the counter stood. */
  lemma ReservationsAdjacent(limit: Tag, n1: nat, n2: nat)
    ensures var first := Reserve(limit, n1);
      var second := Reserve(first.limit, n2);
      && first.range.Valid() && first.range.Size() == n1 && first.range.begin == limit
      && second.range.Valid() && second.range.Size() == n2
      && first.range.end == second.range.begin
      && (forall t :: !(first.range.Contains(t) && second.range.Contains(t)))
      && second.limit == limit + n1 + n2
  {
  }

  /** The part of `SyncValidator` this model covers. */
  class SyncValidator {
    /** `tag_limit_` */
    var tagLimit: Tag
    /** `waitable_fences_` */
    var waitableFences: map<FenceId, FenceSyncState>

    constructor ()
      ensures tagLimit == 0 && waitableFences == map[]
    {
      tagLimit := 0;
      waitableFences := map[];
    }

    /** `ReserveGlobalTagRange(tag_count)`: hand out the next `count` tags. */
    method ReserveGlobalTagRange(count: nat) returns (reserve: Range)
      modifies this
      ensures Reservation(reserve, tagLimit) == Reserve(old(tagLimit), count)
      ensures waitableFences == old(waitableFences)
    {
      reserve := Range(tagLimit, tagLimit + count);
      tagLimit := tagLimit + count;
    }

    /** `UpdateFenceWaitInfo(fence_state, wait_info)`: remember what a live fence
        waits for. */
    method UpdateFenceWaitInfo(fenceLive: bool, info: FenceSyncState)
      modifies this
      ensures waitableFences == if fenceLive then old(waitableFences)[info.fence := info] else old(waitableFences)
      ensures tagLimit == old(tagLimit)
    {
      if !fenceLive { return; }
      waitableFences := waitableFences[info.fence := info];
    }

    /** `WaitForFence(fence)`: the wait the fence stands for, if it is waitable;
        the fence is no longer waitable afterwards. */
    method WaitForFence(fence: FenceId) returns (wait: Option<FenceWait>)
      modifies this
      ensures wait == if fence in old(waitableFences) then Some(WaitOf(old(waitableFences)[fence])) else None
      ensures waitableFences == old(waitableFences) - {fence}
      ensures tagLimit == old(tagLimit)
    {
      wait := None;
      if fence in waitableFences {
        var waitFor := waitableFences[fence];
        if AcquiredInvalid(waitFor.acquired) {
          wait := Some(TaggedWait(waitFor.queueId, waitFor.tag));
        } else {
          wait := Some(AcquireWait(waitFor.acquired));
        }
        waitableFences := waitableFences - {fence};
      }
    }

    /** `PostCallRecordQueueWaitIdle`: on a successful wait of a known queue,
        wait for everything that queue did and erase its fences. `queueId` is
        `None` for a null or unknown queue. */
    method QueueWaitIdle(success: bool, enabled: bool, queueId: Option<QueueId>) returns (wait: Option<FenceWait>)
      modifies this
      ensures var applies := success && enabled && queueId.Some?;
        && wait == (if applies then Some(TaggedWait(queueId.value, MaxTag)) else None)
        && waitableFences == (if applies then AfterQueueIdle(old(waitableFences), queueId.value) else old(waitableFences))
      ensures tagLimit == old(tagLimit)
    {
      wait := None;
      if !success || !enabled || queueId.None? { return; }
      var waitedQueue := queueId.value;
      wait := Some(TaggedWait(waitedQueue, MaxTag));
      waitableFences := map f | f in waitableFences && waitableFences[f].queueId != waitedQueue :: waitableFences[f];
    }

    /** `PostCallRecordDeviceWaitIdle`: wait for everything on every queue and
        erase every fence that is not an acquire fence. */
    method DeviceWaitIdle() returns (wait: FenceWait)
      modifies this
      ensures wait == TaggedWait(QueueAny, MaxTag)
      ensures waitableFences == AfterDeviceIdle(old(waitableFences))
      ensures tagLimit == old(tagLimit)
    {
      wait := TaggedWait(QueueAny, MaxTag);
      waitableFences := map f | f in waitableFences && !AcquiredInvalid(waitableFences[f].acquired) :: waitableFences[f];
    }
  }
}
