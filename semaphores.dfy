/** The registry of signalled binary semaphores (`SignaledSemaphores`). A
    submit works on a child registry layered over the device-wide one: the
    child records signals and waits locally and never changes its parent
    (`prev_`) until `Resolve` pushes its entries up and empties itself. */
module Semaphores {
  import opened Containers
  import opened SyncIds
  import opened Events
  import opened Presentation

  /** `SemaphoreScope`: the queue of a signal and its execution scope. */
  datatype SemaphoreScope = SemaphoreScope(queue: QueueId, execScope: SyncExecScope)

  /** `SemaphoreScope()` */
  const DefaultSemaphoreScope := SemaphoreScope(QueueIdInvalid, DefaultScope)

  /** `SignaledSemaphores::Signal`: the semaphore, the batch that signalled it,
      the signal's first scope and, for a signal by an image acquire, the
      acquired image. */
  datatype Signal = Signal(sem: SemaphoreId, batch: Option<BatchId>, firstScope: SemaphoreScope, acquired: Option<AcquiredImage>)

  /** `Signal(sem_state, batch, exec_scope)`: a signal by a queue submit. */
  function SignalFromBatch(sem: SemaphoreId, batch: BatchId, queue: QueueId, execScope: SyncExecScope): (r: Signal)
    ensures r.sem == sem && r.batch == Some(batch) && r.firstScope == SemaphoreScope(queue, execScope) && r.acquired.None?
  {
    Signal(sem, Some(batch), SemaphoreScope(queue, execScope), None)
  }

  /** `Signal(sem_state, presented, acq_tag)`: a signal by an image acquire, in
      the batch that presented the image and with a default first scope. The
      caller must supply a presented image that has a batch. */
  function SignalFromAcquire(sem: SemaphoreId, presented: PresentedImage, acquireTag: Tag): (r: Signal)
    requires presented.batch.Some?
    ensures r.sem == sem && r.batch == presented.batch && r.firstScope == DefaultSemaphoreScope
    ensures r.acquired == Some(Acquired(presented, acquireTag))
  {
    Signal(sem, presented.batch, DefaultSemaphoreScope, Some(Acquired(presented, acquireTag)))
  }

  /** The `signaled_` table: a semaphore mapped to `None` is a null entry, the
      placeholder a child keeps for a semaphore waited on in the parent. */
  type SignalMap = map<SemaphoreId, Option<Signal>>

  /** Every signal is stored under its own semaphore. */
  ghost predicate WellKeyed(m: SignalMap) {
    forall s :: s in m && m[s].Some? ==> m[s].value.sem == s
  }

  /** `GetMapped(map, sem, null)`: the stored signal, null when missing. */
  function Lookup(m: SignalMap, sem: SemaphoreId): (r: Option<Signal>)
    ensures sem in m ==> r == m[sem]
    ensures sem !in m ==> r.None?
  {
    GetMapped(m, sem, None)
  }

  /** `GetPrev(sem)`: the signal the parent holds, looking only one level up. */
  function GetPrevIn(parent: Option<SignalMap>, sem: SemaphoreId): (r: Option<Signal>)
    ensures parent.None? ==> r.None?
    ensures parent.Some? ==> r == Lookup(parent.value, sem)
  {
    match parent
    case None => None
    case Some(m) => Lookup(m, sem)
  }

  /** The signal a registry currently holds for a semaphore: its own entry when
      it has one (a null entry hides the parent's), else the parent's. */
  function Current(local: SignalMap, parent: Option<SignalMap>, sem: SemaphoreId): Option<Signal> {
    if sem in local then local[sem] else GetPrevIn(parent, sem)
  }

  /** `Insert(sem_state, signal)`: whether it succeeded, and the new local table. */
  datatype InsertResult = InsertResult(success: bool, local: SignalMap)

  function Inserted(local: SignalMap, parent: Option<SignalMap>, sem: SemaphoreId, signal: Signal): (r: InsertResult)
    ensures r.success <==> Current(local, parent, sem).None?
    ensures Current(r.local, parent, sem) == if r.success then Some(signal) else Current(local, parent, sem)
    ensures forall s :: s != sem ==> Current(r.local, parent, s) == Current(local, parent, s)
    ensures r.local.Keys == local.Keys + {sem}
  {
    var entry := if sem in local then local[sem] else GetPrevIn(parent, sem);
    if entry.None? then InsertResult(true, local[sem := Some(signal)])
    else InsertResult(false, local[sem := entry])
  }

  /** `Unsignal(sem)`: the signal taken, and the new local table. */
  datatype UnsignalResult = UnsignalResult(unsignaled: Option<Signal>, local: SignalMap)

  function Unsignaled(local: SignalMap, parent: Option<SignalMap>, sem: SemaphoreId): (r: UnsignalResult)
    ensures r.unsignaled == Current(local, parent, sem)
    ensures Current(r.local, parent, sem).None?
    ensures forall s :: s != sem ==> Current(r.local, parent, s) == Current(local, parent, s)
    ensures parent.None? ==> sem !in r.local && r.local.Keys == local.Keys - {sem}
    ensures parent.Some? ==> r.local == local[sem := None]
  {
    if sem in local then
      UnsignalResult(local[sem], if parent.None? then map s | s in local && s != sem :: local[s] else local[sem := None])
    else if parent.Some? then
      UnsignalResult(GetPrevIn(parent, sem), local[sem := None])
    else
      UnsignalResult(None, local)
  }

  /** `Import(sem, from)`: overwrite the entry, or erase it when `from` is null. */
  function Imported(m: SignalMap, sem: SemaphoreId, from: Option<Signal>): (r: SignalMap)
    ensures Lookup(r, sem) == from
    ensures forall s :: s != sem ==> Lookup(r, s) == Lookup(m, s)
    ensures from.Some? ==> r.Keys == m.Keys + {sem}
    ensures from.None? ==> r.Keys == m.Keys - {sem}
  {
    if from.Some? then m[sem := from] else map s | s in m && s != sem :: m[s]
  }

  /** The parent after `Resolve`: every local entry imported into it. */
  function Resolved(parent: SignalMap, local: SignalMap): SignalMap {
    map s | s in parent.Keys + local.Keys && !(s in local && local[s].None?) :: if s in local then local[s] else parent[s]
  }

  /** The batch `Resolve` trims for one entry: that of a pending signal, unless
      it is the submit's last batch. */
  function TrimmedOf(entry: Option<Signal>, lastBatch: Option<BatchId>): set<BatchId> {
    if entry.Some? && entry.value.batch.Some? && entry.value.batch != lastBatch then {entry.value.batch.value} else {}
  }

  /** The batches `Resolve` trims: those of the signals still pending in the
      child, except the submit's last batch. */
  function TrimmedBatches(local: SignalMap, lastBatch: Option<BatchId>): set<BatchId> {
    set s, b | s in local && b in TrimmedOf(local[s], lastBatch) :: b
  }

  /** One entry more trims at most its own batch. */
  lemma TrimmedStep(done: SignalMap, sem: SemaphoreId, entry: Option<Signal>, lastBatch: Option<BatchId>)
    requires sem !in done
    ensures TrimmedBatches(done[sem := entry], lastBatch) == TrimmedBatches(done, lastBatch) + TrimmedOf(entry, lastBatch)
  {
    var next := done[sem := entry];
    forall b | b in TrimmedBatches(next, lastBatch)
      ensures b in TrimmedBatches(done, lastBatch) + TrimmedOf(entry, lastBatch)
    {
      var s :| s in next && b in TrimmedOf(next[s], lastBatch);
      if s != sem { assert s in done && done[s] == next[s]; }
    }
    forall b | b in TrimmedBatches(done, lastBatch)
      ensures b in TrimmedBatches(next, lastBatch)
    {
      var s :| s in done && b in TrimmedOf(done[s], lastBatch);
      assert s in next && next[s] == done[s];
    }
    forall b | b in TrimmedOf(entry, lastBatch)
      ensures b in TrimmedBatches(next, lastBatch)
    {
      assert sem in next && next[sem] == entry;
    }
  }

  // ---------------------------------------------------------------------------
  // Properties

  /** A second signal of a semaphore that has not been waited on fails and keeps
      the first signal. */
  lemma DoubleSignalFails(local: SignalMap, parent: Option<SignalMap>, sem: SemaphoreId, first: Signal, second: Signal)
    requires Inserted(local, parent, sem, first).success
    ensures var once := Inserted(local, parent, sem, first).local;
      && !Inserted(once, parent, sem, second).success
      && Current(Inserted(once, parent, sem, second).local, parent, sem) == Some(first)
  {
  }

  /** A wait takes the pending signal, after which the semaphore can be signalled again. */
  lemma SignalWaitSignal(local: SignalMap, parent: Option<SignalMap>, sem: SemaphoreId, first: Signal, second: Signal)
    requires Inserted(local, parent, sem, first).success
    ensures var once := Inserted(local, parent, sem, first).local;
      var waited := Unsignaled(once, parent, sem);
      && waited.unsignaled == Some(first)
      && Inserted(waited.local, parent, sem, second).success
  {
  }

  /** A signal the parent holds counts in the child: signalling it again in the
      child fails, and the failed insert copies it into the child. */
  lemma ParentSignalBlocksInsert(local: SignalMap, parent: SignalMap, sem: SemaphoreId, signal: Signal)
    requires sem !in local && Lookup(parent, sem).Some?
    ensures var r := Inserted(local, Some(parent), sem, signal);
      !r.success && sem in r.local && r.local[sem] == Lookup(parent, sem)
  {
  }

  /** Importing one more entry into a resolved parent is resolving with that entry. */
  lemma ResolvedStep(parent: SignalMap, done: SignalMap, sem: SemaphoreId, v: Option<Signal>)
    requires sem !in done
    ensures Imported(Resolved(parent, done), sem, v) == Resolved(parent, done[sem := v])
  {
    var lhs := Imported(Resolved(parent, done), sem, v);
    var rhs := Resolved(parent, done[sem := v]);
    forall s ensures (s in lhs <==> s in rhs) && (s in lhs ==> lhs[s] == rhs[s]) {
      if s == sem {
      } else {
        assert Lookup(lhs, s) == Lookup(Resolved(parent, done), s);
      }
    }
  }

  /** After `Resolve`, the parent holds for every semaphore exactly the signal
      the child held for it; an entry the child waited on is gone from the parent. */
  lemma ResolvedIsCurrent(parent: SignalMap, local: SignalMap, sem: SemaphoreId)
    ensures Lookup(Resolved(parent, local), sem) == Current(local, Some(parent), sem)
  {
    var r := Resolved(parent, local);
    if sem in local && local[sem].Some? {
      assert sem in r;
    } else if sem !in local && sem in parent {
      assert sem in r;
    }
  }

  /** A wait in the child that is resolved removes the signal from the parent. */
  lemma WaitThenResolveErases(parent: SignalMap, local: SignalMap, sem: SemaphoreId)
    ensures Lookup(Resolved(parent, Unsignaled(local, Some(parent), sem).local), sem).None?
  {
    ResolvedIsCurrent(parent, Unsignaled(local, Some(parent), sem).local, sem);
  }

  /** Well-keyed tables stay well keyed. */
  lemma WellKeyedKept(local: SignalMap, parent: SignalMap, sem: SemaphoreId, signal: Signal, v: Option<Signal>)
    requires WellKeyed(local) && WellKeyed(parent) && signal.sem == sem && (v.Some? ==> v.value.sem == sem)
    ensures WellKeyed(Inserted(local, Some(parent), sem, signal).local)
    ensures WellKeyed(Unsignaled(local, Some(parent), sem).local)
    ensures WellKeyed(Imported(parent, sem, v))
    ensures WellKeyed(Resolved(parent, local))
  {
  }

  // ---------------------------------------------------------------------------
  // The registry object

  /** `SignaledSemaphores`: the local table and the parent it is layered over. */
  class SignaledSemaphores {
    var signaled: SignalMap
    var prev: SignaledSemaphores?

    ghost predicate Valid()
      reads this, prev
    {
      prev != this && WellKeyed(signaled) && (prev != null ==> WellKeyed(prev.signaled))
    }

    /** The parent's table, if there is a parent. */
    function Parent(): Option<SignalMap>
      reads this, prev
    {
      if prev == null then None else Some(prev.signaled)
    }

    /** `SignaledSemaphores(prev)`: an empty child of `prev`. */
    constructor (prev: SignaledSemaphores?)
      requires prev != null ==> WellKeyed(prev.signaled)
      ensures signaled == map[] && this.prev == prev && Valid()
    {
      signaled := map[];
      this.prev := prev;
    }

    /** `GetPrev(sem)` */
    function GetPrev(sem: SemaphoreId): (r: Option<Signal>)
      reads this, prev
      ensures r == GetPrevIn(Parent(), sem)
    {
      if prev == null then None else Lookup(prev.signaled, sem)
    }

    /** `Insert(sem_state, signal)`: store the signal unless the semaphore is
        already signalled here or in the parent. */
    method Insert(sem: SemaphoreId, signal: Signal) returns (success: bool)
      requires Valid() && signal.sem == sem
      modifies this
      ensures prev == old(prev) && Valid()
      ensures InsertResult(success, signaled) == Inserted(old(signaled), old(Parent()), sem, signal)
    {
      if sem !in signaled {
        var insertSignal: Option<Signal> := None;
        if prev != null {
          var prevSig := Lookup(prev.signaled, sem);
          if prevSig.Some? {
            insertSignal := prevSig;
          }
        }
        signaled := signaled[sem := insertSignal];
      }
      success := false;
      if signaled[sem].None? {
        signaled := signaled[sem := Some(signal)];
        success := true;
      }
    }

    /** `SignalSemaphore(sem_state, batch, signal_info)`: a queue submit signals
        `sem`; `queue` is the batch's own queue (`batch->GetQueueId()`), and
        `execScope` is the source scope of the signal's stage mask on that
        queue. */
    method SignalSemaphore(sem: SemaphoreId, batch: BatchId, queue: QueueId, execScope: SyncExecScope) returns (success: bool)
      requires Valid()
      modifies this
      ensures prev == old(prev) && Valid()
      ensures InsertResult(success, signaled) == Inserted(old(signaled), old(Parent()), sem, SignalFromBatch(sem, batch, queue, execScope))
    {
      success := Insert(sem, SignalFromBatch(sem, batch, queue, execScope));
    }

    /** `SignalSemaphore(sem_state, presented, acq_tag)`: an image acquire signals `sem`. */
    method SignalSemaphoreOnAcquire(sem: SemaphoreId, presented: PresentedImage, acquireTag: Tag) returns (success: bool)
      requires Valid() && presented.batch.Some?
      modifies this
      ensures prev == old(prev) && Valid()
      ensures InsertResult(success, signaled) == Inserted(old(signaled), old(Parent()), sem, SignalFromAcquire(sem, presented, acquireTag))
    {
      success := Insert(sem, SignalFromAcquire(sem, presented, acquireTag));
    }

    /** `Unsignal(sem)`: take the current signal; keep a null entry when there
        is a parent, so that the wait reaches it at `Resolve`. */
    method Unsignal(sem: SemaphoreId) returns (unsignaled: Option<Signal>)
      requires Valid()
      modifies this
      ensures prev == old(prev) && Valid()
      ensures UnsignalResult(unsignaled, signaled) == Unsignaled(old(signaled), old(Parent()), sem)
    {
      unsignaled := None;
      if sem in signaled {
        unsignaled := signaled[sem];
        if prev == null {
          signaled := map s | s in signaled && s != sem :: signaled[s];
        } else {
          signaled := signaled[sem := None];
        }
      } else if prev != null {
        signaled := signaled[sem := None];
        unsignaled := GetPrev(sem);
      }
    }

    /** `Import(sem, from)` */
    method Import(sem: SemaphoreId, from: Option<Signal>)
      requires WellKeyed(signaled) && (from.Some? ==> from.value.sem == sem)
      modifies this
      ensures prev == old(prev) && WellKeyed(signaled)
      ensures signaled == Imported(old(signaled), sem, from)
    {
      if from.Some? {
        signaled := signaled[sem := from];
      } else {
        signaled := map s | s in signaled && s != sem :: signaled[s];
      }
    }

    /** `Reset()`: clear the table and detach from the parent. */
    method Reset()
      modifies this
      ensures signaled == map[] && prev == null
    {
      signaled := map[];
      prev := null;
    }

    /** `Resolve(parent, last_batch)`: import every local entry into the parent,
        report the batches of pending signals other than the last batch (which
        the source trims), and reset. */
    method Resolve(parent: SignaledSemaphores, lastBatch: Option<BatchId>) returns (trimmed: set<BatchId>)
      requires Valid() && prev == parent
      modifies this, parent
      ensures parent.signaled == Resolved(old(parent.signaled), old(signaled)) && parent.prev == old(parent.prev)
      ensures trimmed == TrimmedBatches(old(signaled), lastBatch)
      ensures signaled == map[] && prev == null
    {
      var local := signaled;
      var remaining := local.Keys;
      ghost var done: SignalMap := map[];
      trimmed := {};
      while remaining != {}
        invariant remaining <= local.Keys && done.Keys == local.Keys - remaining
        invariant forall s :: s in done ==> done[s] == local[s]
        invariant parent.signaled == Resolved(old(parent.signaled), done)
        invariant trimmed == TrimmedBatches(done, lastBatch)
        invariant WellKeyed(parent.signaled) && WellKeyed(local) && parent != this
        invariant parent.prev == old(parent.prev)
        decreases remaining
      {
        var sem :| sem in remaining;
        var entry := local[sem];
        if entry.Some? && entry.value.batch.Some? && entry.value.batch != lastBatch {
          trimmed := trimmed + {entry.value.batch.value};
        }
        ResolvedStep(old(parent.signaled), done, sem, entry);
        TrimmedStep(done, sem, entry, lastBatch);
        parent.Import(sem, entry);
        done := done[sem := entry];
        remaining := remaining - {sem};
      }
      assert done == local;
      Reset();
    }
  }
}
