/** `AttachmentViewGen`: the address-range generators of an attachment's image
    view, one per kind of access (the whole view, the render area, and the depth
    or stencil part of the render area). How an image range generator walks the
    image's memory is not part of this model: a generator is represented by
    the region and the aspects it covers. Aspect masks are sets of bit
    positions. */
module Attachments {
  import opened Containers

  /** Bit positions of `VK_IMAGE_ASPECT_DEPTH_BIT` (0x2) and `VK_IMAGE_ASPECT_STENCIL_BIT` (0x4). */
  const DepthAspect: nat := 1
  const StencilAspect: nat := 2

  datatype Offset3D = Offset3D(x: int, y: int, z: int)
  datatype Extent3D = Extent3D(width: nat, height: nat, depth: nat)

  /** The part of the view a generator walks. */
  datatype Region = FullView | RenderArea(offset: Offset3D, extent: Extent3D)

  /** An `ImageRangeGen`, by what it covers. */
  datatype ImageGen = ImageGen(region: Region, aspects: set<nat>)

  /** `AttachmentViewGen::Gen`; `kGenSize` is 4. */
  datatype Gen = ViewSubresource | RenderAreaGen | DepthOnlyRenderArea | StencilOnlyRenderArea

  /** An attachment view's `view_mask_` and `gen_store_`. */
  datatype AttachmentViewGen = AttachmentViewGen(
    viewMask: set<nat>,
    viewSubresource: Option<ImageGen>,
    renderArea: Option<ImageGen>,
    depthOnly: Option<ImageGen>,
    stencilOnly: Option<ImageGen>)
  {
    /** `gen_store_[type]` */
    function Stored(g: Gen): Option<ImageGen> {
      match g
      case ViewSubresource => viewSubresource
      case RenderAreaGen => renderArea
      case DepthOnlyRenderArea => depthOnly
      case StencilOnlyRenderArea => stencilOnly
    }
  }

  /** The `AttachmentViewGen` constructor: always the full-view and render-area
      generators; the depth-only and stencil-only ones only when the view has
      that aspect and also another one. */
  function MakeAttachmentViewGen(viewMask: set<nat>, offset: Offset3D, extent: Extent3D): (g: AttachmentViewGen)
    ensures g.viewMask == viewMask
    ensures g.viewSubresource == Some(ImageGen(FullView, viewMask))
    ensures g.renderArea == Some(ImageGen(RenderArea(offset, extent), viewMask))
    ensures g.depthOnly.Some? <==> DepthAspect in viewMask && viewMask != {DepthAspect}
    ensures g.depthOnly.Some? ==> g.depthOnly.value == ImageGen(RenderArea(offset, extent), {DepthAspect})
    ensures g.stencilOnly.Some? <==> StencilAspect in viewMask && viewMask != {StencilAspect}
    ensures g.stencilOnly.Some? ==> g.stencilOnly.value == ImageGen(RenderArea(offset, extent), {StencilAspect})
  {
    var area := RenderArea(offset, extent);
    var depth := viewMask * {DepthAspect};
    var stencil := viewMask * {StencilAspect};
    AspectOf(viewMask, DepthAspect);
    AspectOf(viewMask, StencilAspect);
    AttachmentViewGen(
      viewMask,
      Some(ImageGen(FullView, viewMask)),
      Some(ImageGen(area, viewMask)),
      if depth != {} && depth != viewMask then Some(ImageGen(area, depth)) else None,
      if stencil != {} && stencil != viewMask then Some(ImageGen(area, stencil)) else None)
  }

  /** `mask & bit` for a single aspect bit. */
  lemma AspectOf(mask: set<nat>, a: nat)
    ensures a in mask ==> mask * {a} == {a}
    ensures a !in mask ==> mask * {a} == {}
  {
    if a in mask {
      assert a in mask * {a};
    } else {
      assert forall b :: b in mask * {a} ==> b == a;
    }
  }

  /** `GetRangeGen(type)`: a depth-only (stencil-only) request on a view that has
      only that aspect is served by the render-area generator. */
  function GetRangeGen(g: AttachmentViewGen, t: Gen): Option<ImageGen> {
    var depthOnly := t == DepthOnlyRenderArea && g.viewMask == {DepthAspect};
    var stencilOnly := t == StencilOnlyRenderArea && g.viewMask == {StencilAspect};
    g.Stored(if depthOnly || stencilOnly then RenderAreaGen else t)
  }

  /** `GetDepthStencilRenderAreaGenType(depth_op, stencil_op)`: the view has a
      depth or stencil aspect, each operation requested is on an aspect the view
      has, and at least one is requested (the source's asserts). */
  function GetDepthStencilRenderAreaGenType(g: AttachmentViewGen, depthOp: bool, stencilOp: bool): Gen
    requires DepthAspect in g.viewMask || StencilAspect in g.viewMask
    requires depthOp ==> DepthAspect in g.viewMask
    requires stencilOp ==> StencilAspect in g.viewMask
    requires depthOp || stencilOp
  {
    if depthOp then (if stencilOp then RenderAreaGen else DepthOnlyRenderArea)
    else if stencilOp then StencilOnlyRenderArea
    else RenderAreaGen
  }

  /** The aspects a depth/stencil operation touches. */
  function TouchedAspects(depthOp: bool, stencilOp: bool): set<nat> {
    (if depthOp then {DepthAspect} else {}) + (if stencilOp then {StencilAspect} else {})
  }

  /** A depth-only or stencil-only generator is available exactly when the view
      has that aspect; the full-view and render-area ones always are. */
  lemma GetRangeGenAvailable(viewMask: set<nat>, offset: Offset3D, extent: Extent3D, t: Gen)
    ensures GetRangeGen(MakeAttachmentViewGen(viewMask, offset, extent), t).Some? <==>
      match t
      case DepthOnlyRenderArea => DepthAspect in viewMask
      case StencilOnlyRenderArea => StencilAspect in viewMask
      case _ => true
  {
  }

  /** On a depth/stencil view, the generator chosen for an operation walks the
      render area over exactly the aspects the operation touches (given the
      operation is consistent with the view, as the source asserts). */
  lemma DepthStencilGenCoversTouched(viewMask: set<nat>, offset: Offset3D, extent: Extent3D, depthOp: bool, stencilOp: bool)
    requires viewMask <= {DepthAspect, StencilAspect}
    requires depthOp || stencilOp
    requires depthOp ==> DepthAspect in viewMask
    requires stencilOp ==> StencilAspect in viewMask
    ensures var g := MakeAttachmentViewGen(viewMask, offset, extent);
      GetRangeGen(g, GetDepthStencilRenderAreaGenType(g, depthOp, stencilOp))
      == Some(ImageGen(RenderArea(offset, extent), TouchedAspects(depthOp, stencilOp)))
  {
    if depthOp && stencilOp {
      assert viewMask == {DepthAspect, StencilAspect};
      assert TouchedAspects(depthOp, stencilOp) == viewMask;
    } else if depthOp && viewMask != {DepthAspect} {
      assert viewMask == {DepthAspect, StencilAspect};
      assert TouchedAspects(depthOp, stencilOp) == {DepthAspect};
    } else if stencilOp && !depthOp && viewMask != {StencilAspect} {
      assert viewMask == {DepthAspect, StencilAspect};
      assert TouchedAspects(depthOp, stencilOp) == {StencilAspect};
    } else if depthOp {
      assert TouchedAspects(depthOp, stencilOp) == {DepthAspect};
    } else {
      assert TouchedAspects(depthOp, stencilOp) == {StencilAspect};
    }
  }
}
