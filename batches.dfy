/** The tag bookkeeping of a `QueueBatchContext`: where its tag range sits on
    the global tag line (`SetTagBias`, `SetupBatchTags`), the per-queue sync
    tags it imports from the batches it waits on (`ImportSyncTags`), how
    many tags its command buffers need (`SetupCommandBufferInfo`), and which
    tagged waits reach its events (`ApplyTaggedWait`). */
module QueueBatches {
  import opened Ranges
  import opened SyncIds
  import opened Containers
  import opened Events
  import Validator

  /** The per-queue sync tags after `other` is imported: the larger of the two
      at every queue. */
  function PointwiseMax(mine: seq<Tag>, other: seq<Tag>): (r: seq<Tag>)
    requires |mine| == |other|
    ensures |r| == |mine|
  {
    seq(|mine|, q requires 0 <= q < |mine| => Max(mine[q], other[q]))
  }

  /** The imported tags are the least upper bound of both: at every queue no
      smaller than either, and no larger than any other upper bound. */
  lemma PointwiseMaxIsJoin(a: seq<Tag>, b: seq<Tag>, c: seq<Tag>)
    requires |a| == |b| == |c|
    ensures forall q :: 0 <= q < |a| ==> a[q] <= PointwiseMax(a, b)[q] && b[q] <= PointwiseMax(a, b)[q]
    ensures (forall q :: 0 <= q < |a| ==> a[q] <= c[q] && b[q] <= c[q]) ==>
              forall q :: 0 <= q < |a| ==> PointwiseMax(a, b)[q] <= c[q]
  {
  }

  /** Importing is order-independent and importing twice changes nothing. */
  lemma PointwiseMaxLaws(a: seq<Tag>, b: seq<Tag>, c: seq<Tag>)
    requires |a| == |b| == |c|
    ensures PointwiseMax(a, b) == PointwiseMax(b, a)
    ensures PointwiseMax(PointwiseMax(a, b), b) == PointwiseMax(a, b)
    ensures PointwiseMax(PointwiseMax(a, b), c) == PointwiseMax(a, PointwiseMax(b, c))
  {
  }

  /** The per-queue sync tags after `SetTagBias`: the batch's own queue slot, if
      it names one, moves to the end of the batch's range. */
  function OwnSyncTag(tags: seq<Tag>, queueId: QueueId, end: Tag): (r: seq<Tag>)
    ensures |r| == |tags|
    ensures queueId < |tags| ==> r[queueId] == end
    ensures forall q :: 0 <= q < |tags| && q != queueId ==> r[q] == tags[q]
  {
    if queueId < |tags| then tags[queueId := end] else tags
  }

  /** The tags the command buffers of a submit need: the sum of the tag limits
      of the command buffers that are known (`None` for the others). */
  function TagLimitSum(limits: seq<Option<nat>>): nat {
    if |limits| == 0 then 0
    else TagLimitSum(limits[..|limits| - 1]) + (if limits[|limits| - 1].Some? then limits[|limits| - 1].value else 0)
  }

  /** The entry a known command buffer adds to the list. */
  function KnownEntry(limits: seq<Option<nat>>, k: nat): seq<(nat, nat)>
    requires k < |limits|
  {
    match limits[k]
    case Some(n) => [(k, n)]
    case None => []
  }

  /** `(index, tag limit)` of each known command buffer, in submit order. */
  function KnownCommandBuffers(limits: seq<Option<nat>>): seq<(nat, nat)> {
    if |limits| == 0 then []
    else KnownCommandBuffers(limits[..|limits| - 1]) + KnownEntry(limits, |limits| - 1)
  }

  /** Each entry of the list carries its own command buffer's index and limit,
      and the indices increase. */
  lemma {:induction false} KnownCommandBuffersIndexed(limits: seq<Option<nat>>)
    ensures forall i :: 0 <= i < |KnownCommandBuffers(limits)| ==>
      KnownCommandBuffers(limits)[i].0 < |limits| && limits[KnownCommandBuffers(limits)[i].0] == Some(KnownCommandBuffers(limits)[i].1)
    ensures forall i, j :: 0 <= i < j < |KnownCommandBuffers(limits)| ==> KnownCommandBuffers(limits)[i].0 < KnownCommandBuffers(limits)[j].0
  {
    if |limits| > 0 {
      var init := limits[..|limits| - 1];
      KnownCommandBuffersIndexed(init);
      var prev := KnownCommandBuffers(init);
      var cbs := KnownCommandBuffers(limits);
      var last := |limits| - 1;
      var e := KnownEntry(limits, last);
      assert cbs == prev + e;
      assert forall i :: 0 <= i < |e| ==> limits[last].Some? && e[i] == (last, limits[last].value);
      assert forall i :: 0 <= i < |prev| ==> cbs[i] == prev[i];
      forall i | 0 <= i < |cbs|
        ensures cbs[i].0 < |limits| && limits[cbs[i].0] == Some(cbs[i].1)
        ensures cbs[i].0 <= last && (cbs[i].0 == last ==> i == |prev|)
      {
        if i < |prev| {
          assert cbs[i] == prev[i] && init[prev[i].0] == limits[prev[i].0];
        } else {
          assert cbs[i] == e[i - |prev|];
        }
      }
    }
  }

  /** Every known command buffer is in the list. */
  lemma {:induction false} KnownCommandBuffersComplete(limits: seq<Option<nat>>, k: nat)
    requires k < |limits| && limits[k].Some?
    ensures exists i :: 0 <= i < |KnownCommandBuffers(limits)| && KnownCommandBuffers(limits)[i] == (k, limits[k].value)
  {
    var init := limits[..|limits| - 1];
    var prev := KnownCommandBuffers(init);
    var cbs := KnownCommandBuffers(limits);
    if k < |init| {
      assert init[k] == limits[k];
      KnownCommandBuffersComplete(init, k);
      var i :| 0 <= i < |prev| && prev[i] == (k, limits[k].value);
      assert cbs[i] == prev[i];
    } else {
      assert cbs[|prev|] == (k, limits[k].value);
    }
  }

  /** The tags a submit needs are the limits of the listed command buffers. */
  lemma {:induction false} KnownCommandBuffersSum(limits: seq<Option<nat>>)
    ensures TagLimitSum(limits) == LimitsOf(KnownCommandBuffers(limits))
  {
    if |limits| > 0 {
      var init := limits[..|limits| - 1];
      KnownCommandBuffersSum(init);
      LimitsOfAppend(KnownCommandBuffers(init), KnownEntry(limits, |limits| - 1));
    }
  }

  /** The tag limits of a command buffer list, summed. */
  function LimitsOf(cbs: seq<(nat, nat)>): nat {
    if |cbs| == 0 then 0 else LimitsOf(cbs[..|cbs| - 1]) + cbs[|cbs| - 1].1
  }

  lemma {:induction false} LimitsOfAppend(a: seq<(nat, nat)>, b: seq<(nat, nat)>)
    ensures LimitsOf(a + b) == LimitsOf(a) + LimitsOf(b)
    decreases |b|
  {
    if |b| > 0 {
      assert (a + b)[..|a + b| - 1] == a + b[..|b| - 1];
      LimitsOfAppend(a, b[..|b| - 1]);
    } else {
      assert a + b == a;
    }
  }

  /** Whether `ApplyTaggedWait(queue_id, tag)` reaches a batch's events: the
      batch has a queue, and the wait is for that queue or for any queue. */
  predicate TaggedWaitReachesEvents(hasQueue: bool, batchQueue: QueueId, waitQueue: QueueId) {
    hasQueue && (waitQueue == batchQueue || waitQueue == QueueAny)
  }

  /** `QueueBatchContext`: the fields of its tag bookkeeping, and its events. */
  class QueueBatchContext {
    /** Whether the batch runs on a queue (`queue_state_`); acquire batches do not. */
    const hasQueue: bool
    /** The id of that queue. */
    const queueOfState: QueueId
    /** `events_context_` */
    const events: SyncEventsContext
    /** `tag_range_` */
    var tagRange: Range
    /** `batch_.bias` */
    var bias: Tag
    /** The start tag of `access_context_` */
    var startTag: Tag
    /** `queue_sync_tag_`: per queue, the last tag this batch has synchronized with. */
    var queueSyncTag: seq<Tag>
    /** `command_buffers_`: `(index in the submit, tag limit)` of each known command buffer */
    var commandBuffers: seq<(nat, nat)>

    ghost predicate Valid()
      reads this
    {
      tagRange.Valid()
    }

    constructor (hasQueue: bool, queueOfState: QueueId, events: SyncEventsContext, queueCount: nat)
      ensures this.hasQueue == hasQueue && this.queueOfState == queueOfState && this.events == events
      ensures tagRange == Range(0, 0) && queueSyncTag == seq(queueCount, _ => 0) && commandBuffers == []
      ensures Valid()
    {
      this.hasQueue := hasQueue;
      this.queueOfState := queueOfState;
      this.events := events;
      tagRange := Range(0, 0);
      bias := 0;
      startTag := 0;
      queueSyncTag := seq(queueCount, _ => 0);
      commandBuffers := [];
    }

    /** `GetQueueId()`: the batch's queue, or `kQueueIdInvalid` without one. */
    function GetQueueId(): (id: QueueId)
      reads this
      ensures hasQueue ==> id == queueOfState
      ensures !hasQueue ==> id == QueueIdInvalid
    {
      if hasQueue then queueOfState else QueueIdInvalid
    }

    /** `SetTagBias(bias)`: move the tag range, keeping its size, to begin at
        `bias`, and set the batch's own queue slot to the range's new end. */
    method SetTagBias(newBias: Tag)
      requires Valid()
      modifies this
      ensures tagRange == Range(newBias, newBias + old(tagRange).Size())
      ensures bias == newBias && startTag == newBias
      ensures queueSyncTag == OwnSyncTag(old(queueSyncTag), GetQueueId(), tagRange.end)
      ensures commandBuffers == old(commandBuffers) && Valid()
    {
      var size := tagRange.Size();
      tagRange := Range(newBias, newBias + size);
      startTag := newBias;
      bias := newBias;
      var thisQ := GetQueueId();
      if thisQ < |queueSyncTag| {
        queueSyncTag := queueSyncTag[thisQ := tagRange.end];
      }
    }

    /** `SetupBatchTags()`: reserve global tags for the whole tag range and move
        the range onto them. */
    method SetupBatchTags(syncState: Validator.SyncValidator)
      requires Valid()
      modifies this, syncState
      ensures tagRange == Range(old(syncState.tagLimit), old(syncState.tagLimit) + old(tagRange).Size())
      ensures syncState.tagLimit == tagRange.end && syncState.waitableFences == old(syncState.waitableFences)
      ensures bias == tagRange.begin && startTag == tagRange.begin
      ensures queueSyncTag == OwnSyncTag(old(queueSyncTag), GetQueueId(), tagRange.end)
      ensures commandBuffers == old(commandBuffers) && Valid()
    {
      var globalTags := syncState.ReserveGlobalTagRange(tagRange.Size());
      SetTagBias(globalTags.begin);
    }

    /** `SetupBatchTags(tag_range)`: a present's tag range is given; place it
        on newly reserved global tags. */
    method SetupBatchTagsFor(syncState: Validator.SyncValidator, range: Range)
      requires range.Valid()
      modifies this, syncState
      ensures tagRange == Range(old(syncState.tagLimit), old(syncState.tagLimit) + range.Size())
      ensures syncState.tagLimit == tagRange.end && syncState.waitableFences == old(syncState.waitableFences)
      ensures bias == tagRange.begin && startTag == tagRange.begin
      ensures queueSyncTag == OwnSyncTag(old(queueSyncTag), GetQueueId(), tagRange.end)
      ensures commandBuffers == old(commandBuffers) && Valid()
    {
      tagRange := range;
      SetupBatchTags(syncState);
    }

    /** `ImportSyncTags(from)`: at every queue keep the larger sync tag. */
    method ImportSyncTags(from: QueueBatchContext)
      requires |from.queueSyncTag| == |queueSyncTag|
      modifies this
      ensures queueSyncTag == PointwiseMax(old(queueSyncTag), old(from.queueSyncTag))
      ensures tagRange == old(tagRange) && bias == old(bias) && startTag == old(startTag)
      ensures commandBuffers == old(commandBuffers)
    {
      ghost var mine := queueSyncTag;
      ghost var theirs := from.queueSyncTag;
      var qLimit := |queueSyncTag|;
      var q := 0;
      while q < qLimit
        invariant q <= qLimit == |queueSyncTag| == |mine|
        invariant from == this ==> theirs == mine
        invariant forall i :: 0 <= i < q ==> queueSyncTag[i] == Max(mine[i], theirs[i])
        invariant forall i :: q <= i < qLimit ==> queueSyncTag[i] == mine[i]
        invariant from != this ==> from.queueSyncTag == theirs
        invariant tagRange == old(tagRange) && bias == old(bias) && startTag == old(startTag)
        invariant commandBuffers == old(commandBuffers)
      {
        queueSyncTag := queueSyncTag[q := Max(queueSyncTag[q], from.queueSyncTag[q])];
        q := q + 1;
      }
      assert queueSyncTag == PointwiseMax(mine, theirs);
    }

    /** `SetupCommandBufferInfo(submit_info)`: list the known command buffers of
        a submit and grow the tag range by their tag limits. `limits[i]` is the
        tag limit of the i-th command buffer, `None` when it is unknown. */
    method SetupCommandBufferInfo(limits: seq<Option<nat>>)
      requires Valid()
      modifies this
      ensures tagRange == Range(old(tagRange).begin, old(tagRange).end + TagLimitSum(limits))
      ensures commandBuffers == old(commandBuffers) + KnownCommandBuffers(limits)
      ensures queueSyncTag == old(queueSyncTag) && bias == old(bias) && startTag == old(startTag) && Valid()
    {
      var i := 0;
      while i < |limits|
        invariant i <= |limits|
        invariant tagRange == Range(old(tagRange).begin, old(tagRange).end + TagLimitSum(limits[..i]))
        invariant commandBuffers == old(commandBuffers) + KnownCommandBuffers(limits[..i])
        invariant queueSyncTag == old(queueSyncTag) && bias == old(bias) && startTag == old(startTag)
      {
        assert limits[..i + 1][..i] == limits[..i];
        if limits[i].Some? {
          var tagLimit := limits[i].value;
          tagRange := tagRange.(end := tagRange.end + tagLimit);
          commandBuffers := commandBuffers + [(i, tagLimit)];
        }
        i := i + 1;
      }
      assert limits[..|limits|] == limits;
    }

    /** `ApplyTaggedWait(queue_id, tag)`, on the batch's events: a wait for this
        batch's queue, or for any queue, applies the tagged wait to its events;
        `srcExec` / `dstExec` are the expanded scopes of the queue's flags. The
        wait on the batch's access state is not part of this model. */
    method ApplyTaggedWait(waitQueue: QueueId, tag: Tag, srcExec: StageMask, dstExec: StageMask)
      modifies events
      ensures TaggedWaitReachesEvents(hasQueue, queueOfState, waitQueue) ==>
        events.events == EventsAfterBarrier(old(events.events), SyncExecScope({ALL_COMMANDS}, srcExec), SyncExecScope({ALL_COMMANDS}, dstExec), tag)
      ensures !TaggedWaitReachesEvents(hasQueue, queueOfState, waitQueue) ==> events.events == old(events.events)
    {
      var anyQueue := waitQueue == QueueAny;
      if hasQueue && (waitQueue == GetQueueId() || anyQueue) {
        events.ApplyTaggedWait(srcExec, dstExec, tag);
      }
    }
  }

  /** Two batches set up one after the other get adjacent, disjoint global tag
      ranges of their own sizes. */
  method SetupTwoBatches(syncState: Validator.SyncValidator, a: QueueBatchContext, b: QueueBatchContext)
    requires a.Valid() && b.Valid() && a != b
    modifies syncState, a, b
    ensures a.Valid() && b.Valid()
    ensures a.tagRange.Size() == old(a.tagRange).Size() && b.tagRange.Size() == old(b.tagRange).Size()
    ensures a.tagRange.end == b.tagRange.begin && a.tagRange.begin == old(syncState.tagLimit)
    ensures syncState.tagLimit == b.tagRange.end
  {
    a.SetupBatchTags(syncState);
    b.SetupBatchTags(syncState);
  }
}
