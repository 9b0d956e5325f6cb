/** Presented swapchain images: the list `SetupPresentInfo` builds for one
    `vkQueuePresentKHR`, and the per-swapchain table of presented images that
    `RecordPresentedImage` fills and `MovePresentedImage` empties on acquire. */
module Presentation {
  import opened Containers
  import opened SyncIds
  import opened Ranges

  /** What the state tracker knows of a live swapchain: its images, by index. */
  datatype SwapchainView = SwapchainView(id: SwapchainId, images: seq<ImageId>)

  /** `GetSwapChainImageShared(index)`: the image at `index`, null when there is none. */
  function SwapchainImage(view: SwapchainView, index: nat): (r: Option<ImageId>)
    ensures r.Some? <==> index < |view.images|
    ensures r.Some? ==> r.value == view.images[index]
  {
    if index < |view.images| then Some(view.images[index]) else None
  }

  /** `PresentedImage`: a shared pointer that may be null becomes an `Option`;
      the range generator of the image is not part of this model. */
  datatype PresentedImage = PresentedImage(
    tag: Tag,
    imageIndex: nat,
    presentIndex: nat,
    swapchain: Option<SwapchainId>,
    image: Option<ImageId>,
    batch: Option<BatchId>)
  {
    /** `Invalid()`: no image is bound to the record. */
    predicate Invalid() { image.None? }
  }

  /** `PresentedImage()`: every pointer null. The default tag and indices are
      not given by the source; the values chosen here are arbitrary and never
      observed, since an empty slot is always replaced by `FreshPresented`. */
  const DefaultPresentedImage := PresentedImage(InvalidTag, 0, 0, None, None, None)

  /** What is left in a slot a presented image has been moved out of: the
      pointers are null, the integers are copied. */
  function MovedFrom(p: PresentedImage): (r: PresentedImage)
    ensures r.Invalid() && r.swapchain.None? && r.batch.None?
    ensures r.tag == p.tag && r.imageIndex == p.imageIndex && r.presentIndex == p.presentIndex
  {
    p.(swapchain := None, image := None, batch := None)
  }

  /** `SetImage(at_index)`: record the index and, when the swapchain is alive,
      look its image up. */
  function SetImage(p: PresentedImage, view: Option<SwapchainView>, atIndex: nat): (r: PresentedImage)
    ensures r.imageIndex == atIndex
    ensures r.tag == p.tag && r.presentIndex == p.presentIndex && r.swapchain == p.swapchain && r.batch == p.batch
    ensures view.None? ==> r.image == p.image
    ensures view.Some? ==> r.image == SwapchainImage(view.value, atIndex)
  {
    match view
    case None => p.(imageIndex := atIndex)
    case Some(v) => p.(imageIndex := atIndex, image := SwapchainImage(v, atIndex))
  }

  /** `PresentedImage(sync_state, batch, swapchain, image_index, present_index, tag)`:
      `view` is the swapchain the handle names, `None` when it is not live. */
  function MakePresented(batch: BatchId, swapchain: SwapchainId, view: Option<SwapchainView>, imageIndex: nat, presentIndex: nat, tag: Tag): (r: PresentedImage)
    ensures r.tag == tag && r.imageIndex == imageIndex && r.presentIndex == presentIndex && r.batch == Some(batch)
    ensures !r.Invalid() <==> view.Some? && imageIndex < |view.value.images|
  {
    SetImage(PresentedImage(tag, imageIndex, presentIndex, if view.Some? then Some(swapchain) else None, None, Some(batch)), view, imageIndex)
  }

  /** `PresentedImage(swapchain, at_index)`: a first acquire with no present
      record, tagged `kInvalidTag`. */
  function FreshPresented(view: SwapchainView, atIndex: nat): (r: PresentedImage)
    ensures r.tag == InvalidTag && r.imageIndex == atIndex && r.swapchain == Some(view.id) && r.batch.None?
    ensures r.image == SwapchainImage(view, atIndex)
  {
    SetImage(DefaultPresentedImage.(swapchain := Some(view.id), tag := InvalidTag), Some(view), atIndex)
  }

  // ---------------------------------------------------------------------------
  // SetupPresentInfo

  /** The presented images for the first `n` entries of a present: each entry
      becomes a record tagged with the list's size before it, and a record with
      no image is dropped again. `views[k]` is the live swapchain `swapchains[k]`
      names, if any. */
  function PresentedPrefix(batch: BatchId, swapchains: seq<SwapchainId>, views: seq<Option<SwapchainView>>, indices: seq<nat>, n: nat): (r: seq<PresentedImage>)
    requires |swapchains| == |views| == |indices| && n <= |swapchains|
    ensures |r| <= n
  {
    if n == 0 then []
    else
      var prev := PresentedPrefix(batch, swapchains, views, indices, n - 1);
      var p := MakePresented(batch, swapchains[n - 1], views[n - 1], indices[n - 1], n - 1, |prev|);
      if p.Invalid() then prev else prev + [p]
  }

  /** The entry of a present a record came from. */
  predicate FromEntry(p: PresentedImage, batch: BatchId, swapchains: seq<SwapchainId>, views: seq<Option<SwapchainView>>, indices: seq<nat>)
    requires |swapchains| == |views| == |indices|
  {
    p.presentIndex < |swapchains| && p == MakePresented(batch, swapchains[p.presentIndex], views[p.presentIndex], indices[p.presentIndex], p.presentIndex, p.tag)
  }

  /** One entry more keeps the earlier records and adds at most its own. */
  lemma PresentedPrefixStep(batch: BatchId, swapchains: seq<SwapchainId>, views: seq<Option<SwapchainView>>, indices: seq<nat>, n: nat)
    requires |swapchains| == |views| == |indices| && 0 < n <= |swapchains|
    ensures var prev := PresentedPrefix(batch, swapchains, views, indices, n - 1);
      var r := PresentedPrefix(batch, swapchains, views, indices, n);
      var p := MakePresented(batch, swapchains[n - 1], views[n - 1], indices[n - 1], n - 1, |prev|);
      && (forall i :: 0 <= i < |prev| ==> r[i] == prev[i])
      && (p.Invalid() ==> r == prev)
      && (!p.Invalid() ==> |r| == |prev| + 1 && r[|prev|] == p)
  {
  }

  /** Tags of a present are dense: each record's tag is its position; every
      record holds an image and comes from its own entry. */
  lemma {:induction false} PresentedPrefixTags(batch: BatchId, swapchains: seq<SwapchainId>, views: seq<Option<SwapchainView>>, indices: seq<nat>, n: nat)
    requires |swapchains| == |views| == |indices| && n <= |swapchains|
    ensures var r := PresentedPrefix(batch, swapchains, views, indices, n);
      forall i :: 0 <= i < |r| ==> r[i].tag == i && !r[i].Invalid() && r[i].presentIndex < n && FromEntry(r[i], batch, swapchains, views, indices)
  {
    if n > 0 {
      PresentedPrefixTags(batch, swapchains, views, indices, n - 1);
      PresentedPrefixStep(batch, swapchains, views, indices, n);
    }
  }

  /** Records keep the order of the present's entries. */
  lemma {:induction false} PresentedPrefixOrdered(batch: BatchId, swapchains: seq<SwapchainId>, views: seq<Option<SwapchainView>>, indices: seq<nat>, n: nat)
    requires |swapchains| == |views| == |indices| && n <= |swapchains|
    ensures var r := PresentedPrefix(batch, swapchains, views, indices, n);
      forall i, j :: 0 <= i < j < |r| ==> r[i].presentIndex < r[j].presentIndex
  {
    if n > 0 {
      PresentedPrefixOrdered(batch, swapchains, views, indices, n - 1);
      PresentedPrefixTags(batch, swapchains, views, indices, n - 1);
      PresentedPrefixStep(batch, swapchains, views, indices, n);
    }
  }

  /** Some record of `r` comes from entry `k` of the present. */
  ghost predicate Presents(r: seq<PresentedImage>, k: nat) {
    exists i :: 0 <= i < |r| && r[i].presentIndex == k
  }

  /** An entry of a present is kept exactly when its swapchain is live and has an
      image at the presented index. */
  lemma {:induction false} PresentedPrefixComplete(batch: BatchId, swapchains: seq<SwapchainId>, views: seq<Option<SwapchainView>>, indices: seq<nat>, n: nat, k: nat)
    requires |swapchains| == |views| == |indices| && k < n <= |swapchains|
    ensures Presents(PresentedPrefix(batch, swapchains, views, indices, n), k)
      <==> views[k].Some? && indices[k] < |views[k].value.images|
  {
    var prev := PresentedPrefix(batch, swapchains, views, indices, n - 1);
    var r := PresentedPrefix(batch, swapchains, views, indices, n);
    var p := MakePresented(batch, swapchains[n - 1], views[n - 1], indices[n - 1], n - 1, |prev|);
    PresentedPrefixTags(batch, swapchains, views, indices, n - 1);
    PresentedPrefixStep(batch, swapchains, views, indices, n);
    if k < n - 1 {
      PresentedPrefixComplete(batch, swapchains, views, indices, n - 1, k);
      PresentsExtend(prev, r, k);
    } else if !p.Invalid() {
      assert r[|prev|].presentIndex == k;
    } else {
      assert r == prev;
    }
  }

  /** Records added after `prev` that come from other entries do not change
      whether entry `k` is presented. */
  lemma PresentsExtend(prev: seq<PresentedImage>, r: seq<PresentedImage>, k: nat)
    requires |prev| <= |r| && forall i :: 0 <= i < |prev| ==> r[i] == prev[i]
    requires forall i :: |prev| <= i < |r| ==> r[i].presentIndex != k
    ensures Presents(r, k) <==> Presents(prev, k)
  {
    if Presents(r, k) {
      var i :| 0 <= i < |r| && r[i].presentIndex == k;
      assert i < |prev| && prev[i] == r[i];
    }
    if Presents(prev, k) {
      var i :| 0 <= i < |prev| && prev[i].presentIndex == k;
      assert r[i] == prev[i];
    }
  }

  /** `SetupPresentInfo(present_info, batch, presented_images)`: append one
      record per swapchain of the present, tagged with the list's current size,
      drop those without an image, and return the tag range of the list. */
  method SetupPresentInfo(batch: BatchId, swapchains: seq<SwapchainId>, views: seq<Option<SwapchainView>>, indices: seq<nat>)
    returns (tagRange: Range, presented: seq<PresentedImage>)
    requires |swapchains| == |views| == |indices|
    ensures presented == PresentedPrefix(batch, swapchains, views, indices, |swapchains|)
    ensures tagRange == Range(0, |presented|)
  {
    presented := [];
    var presentIndex := 0;
    while presentIndex < |swapchains|
      invariant presentIndex <= |swapchains|
      invariant presented == PresentedPrefix(batch, swapchains, views, indices, presentIndex)
    {
      var tag := |presented|;
      presented := presented + [MakePresented(batch, swapchains[presentIndex], views[presentIndex], indices[presentIndex], presentIndex, tag)];
      if presented[|presented| - 1].Invalid() {
        presented := presented[..|presented| - 1];
      }
      presentIndex := presentIndex + 1;
    }
    tagRange := Range(0, |presented|);
  }

  // ---------------------------------------------------------------------------
  // The swapchain's table of presented images

  /** `presented.resize(n)` when the table is shorter than `n`. */
  function Grown(table: seq<PresentedImage>, n: nat): (r: seq<PresentedImage>)
    ensures |r| == Max(|table|, n)
    ensures forall i :: 0 <= i < |table| ==> r[i] == table[i]
    ensures forall i :: |table| <= i < |r| ==> r[i] == DefaultPresentedImage
  {
    if n <= |table| then table else table + seq(n - |table|, _ => DefaultPresentedImage)
  }

  /** The table after `RecordPresentedImage(p)`. */
  function Recorded(table: seq<PresentedImage>, p: PresentedImage): seq<PresentedImage> {
    Grown(table, p.imageIndex + 1)[p.imageIndex := p]
  }

  /** `MovePresentedImage(index)`: the record taken, and the table after it. */
  datatype MoveResult = MoveResult(taken: PresentedImage, table: seq<PresentedImage>)

  function MovedOut(view: SwapchainView, table: seq<PresentedImage>, index: nat): MoveResult {
    var grown := Grown(table, index + 1);
    var slot := grown[index];
    MoveResult(if slot.Invalid() then FreshPresented(view, index) else slot, grown[index := MovedFrom(slot)])
  }

  /** Recording a presented image puts it in the slot of its image index, grows
      the table only as far as that slot, and leaves every other slot as it was. */
  lemma RecordedSlots(table: seq<PresentedImage>, p: PresentedImage)
    ensures var r := Recorded(table, p);
      && |r| == Max(|table|, p.imageIndex + 1)
      && r[p.imageIndex] == p
      && (forall i :: 0 <= i < |r| && i != p.imageIndex ==> r[i] == if i < |table| then table[i] else DefaultPresentedImage)
  {
  }

  /** Moving out of a slot hands back the record stored there when it holds an
      image, and otherwise a fresh record of the swapchain's image at that
      index; the slot is left without an image and every other slot as it was. */
  lemma MovedOutSlots(view: SwapchainView, table: seq<PresentedImage>, index: nat)
    ensures var m := MovedOut(view, table, index);
      var slot := if index < |table| then table[index] else DefaultPresentedImage;
      && |m.table| == Max(|table|, index + 1)
      && m.table[index].Invalid()
      && (!slot.Invalid() ==> m.taken == slot)
      && (slot.Invalid() ==> m.taken == FreshPresented(view, index))
      && (forall i :: 0 <= i < |m.table| && i != index ==> m.table[i] == if i < |table| then table[i] else DefaultPresentedImage)
  {
  }

  /** An acquire returns what the last present of that image recorded, and a
      second acquire with no present in between finds no record. */
  lemma {:induction false} RecordThenMove(view: SwapchainView, table: seq<PresentedImage>, p: PresentedImage)
    requires !p.Invalid()
    ensures var m := MovedOut(view, Recorded(table, p), p.imageIndex);
      && m.taken == p
      && MovedOut(view, m.table, p.imageIndex).taken == FreshPresented(view, p.imageIndex)
      && |m.table| == |Recorded(table, p)|
  {
    var r := Recorded(table, p);
    RecordedSlots(table, p);
    MovedOutSlots(view, r, p.imageIndex);
    var m := MovedOut(view, r, p.imageIndex);
    MovedOutSlots(view, m.table, p.imageIndex);
  }

  /** Every record in a table holds an image only in the slot of its own image index. */
  ghost predicate SlotsIndexed(table: seq<PresentedImage>) {
    forall i :: 0 <= i < |table| && !table[i].Invalid() ==> table[i].imageIndex == i
  }

  /** Recording and moving keep the table indexed, and an acquire of index `i`
      always hands back a record for image index `i`. */
  lemma IndexedPreserved(view: SwapchainView, table: seq<PresentedImage>, p: PresentedImage, index: nat)
    requires SlotsIndexed(table)
    ensures SlotsIndexed(Recorded(table, p))
    ensures SlotsIndexed(MovedOut(view, table, index).table)
    ensures MovedOut(view, table, index).taken.imageIndex == index
  {
    RecordedSlots(table, p);
    MovedOutSlots(view, table, index);
  }

  /** `AcquiredImage(presented, acq_tag)`: what an acquire remembers of the
      presented image it takes over (its range generator is not part of this model). */
  datatype AcquiredImage = AcquiredImage(image: Option<ImageId>, presentTag: Tag, acquireTag: Tag)

  function Acquired(presented: PresentedImage, acquireTag: Tag): (r: AcquiredImage)
    ensures r.image == presented.image && r.presentTag == presented.tag && r.acquireTag == acquireTag
  {
    AcquiredImage(presented.image, presented.tag, acquireTag)
  }

  /** `AcquiredImage::Invalid()`: no image. */
  predicate AcquiredInvalid(a: AcquiredImage) { a.image.None? }

  /** `syncval_state::Swapchain`: its live view and its table of presented images. */
  class Swapchain {
    const view: SwapchainView
    var presented: seq<PresentedImage>

    ghost predicate Valid()
      reads this
    {
      SlotsIndexed(presented)
    }

    constructor (view: SwapchainView)
      ensures this.view == view && presented == [] && Valid()
    {
      this.view := view;
      presented := [];
    }

    /** `RecordPresentedImage(presented_image)`: store the record in the slot of
        its image index, growing the table when needed. */
    method RecordPresentedImage(p: PresentedImage)
      requires Valid()
      modifies this
      ensures presented == Recorded(old(presented), p)
      ensures Valid()
    {
      IndexedPreserved(view, presented, p, 0);
      var index := p.imageIndex;
      if index >= |presented| {
        presented := presented + seq(index + 1 - |presented|, _ => DefaultPresentedImage);
      }
      presented := presented[index := p];
    }

    /** `MovePresentedImage(image_index)`: take the record out of its slot, and
        make a fresh one when the slot held no image. */
    method MovePresentedImage(index: nat) returns (r: PresentedImage)
      requires Valid()
      modifies this
      ensures MoveResult(r, presented) == MovedOut(view, old(presented), index)
      ensures r.imageIndex == index && Valid()
    {
      IndexedPreserved(view, presented, DefaultPresentedImage, index);
      if |presented| <= index {
        presented := presented + seq(index + 1 - |presented|, _ => DefaultPresentedImage);
      }
      r := presented[index];
      presented := presented[index := MovedFrom(r)];
      if r.Invalid() {
        r := FreshPresented(view, index);
      }
    }
  }
}
