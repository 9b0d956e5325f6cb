/** Identifiers shared across the synchronization validator's bookkeeping:
    handles become naturals, and the sentinel tags and queue ids take the values
    of their 64-bit and 32-bit unsigned declarations. */
module SyncIds {

  /** A `ResourceUsageTag`: a position on the device-wide tag line. */
  type Tag = nat

  /** `QueueId` */
  type QueueId = nat

  type BatchId = nat
  type SemaphoreId = nat
  type FenceId = nat
  type ImageId = nat
  type SwapchainId = nat

  /** The largest 64-bit tag: `ResourceUsageRecord::kMaxIndex`, also `kInvalidTag`. */
  const MaxTag: Tag := 0xFFFF_FFFF_FFFF_FFFF
  const InvalidTag: Tag := MaxTag

  /** `kQueueIdInvalid`, the largest 32-bit queue id. */
  const QueueIdInvalid: QueueId := 0xFFFF_FFFF
  /** `kQueueAny`, one below `kQueueIdInvalid`. */
  const QueueAny: QueueId := 0xFFFF_FFFE
}
