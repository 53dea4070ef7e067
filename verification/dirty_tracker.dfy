/** The notification side of the state manager: `syncState`, which turns
    fine-grained GL dirty bits into the five coarse flags, and the three
    mode-change notifications `updateStencilSizeIfChanged`,
    `setViewportBounds` and `updatePresentPath`. None of them touches the
    device; they only set flags and record modes. */
module DirtyTracker {
  import opened Wrappers
  import opened GLTypes
  import opened StateManager

  /** A single compared value, so that the values a dirty bit watches can
      be listed uniformly. */
  datatype Field =
    | Flag(b: bool)
    | Enum(e: GLenum)
    | Mask(m: GLMask)
    | Ref(i: int)
    | Number(x: real)
    | Color(c: ColorF)
    | Rect(r: Rectangle)

  /** The static mapping from a dirty bit to the coarse flags it may set. */
  function Owners(bit: DirtyBit): set<Category>
  {
    match bit
    case BlendEquations | BlendFuncs | BlendEnabled | SampleAlphaToCoverageEnabled
      | DitherEnabled | ColorMask | BlendColor =>
      {Blend}
    case DepthMask | DepthTestEnabled | DepthFunc | StencilTestEnabled | StencilFuncsFront
      | StencilFuncsBack | StencilWritemaskFront | StencilWritemaskBack | StencilOpsFront
      | StencilOpsBack =>
      {DepthStencil}
    case CullFaceEnabled | CullFace | FrontFace | PolygonOffsetFillEnabled | PolygonOffset
      | RasterizerDiscardEnabled =>
      {Rasterizer}
    case Scissor => {Category.Scissor}
    case ScissorTestEnabled => {Category.Scissor, Rasterizer}
    case DepthRange | Viewport => {Category.Viewport}
    case Unhandled(_) => {}
  }

  /** The values of a GL state that a dirty bit announces a change to. */
  function Watched(bit: DirtyBit, s: GLState): seq<Field>
  {
    match bit
    case BlendEquations => [Enum(s.blend.blendEquationRGB), Enum(s.blend.blendEquationAlpha)]
    case BlendFuncs =>
      [Enum(s.blend.sourceBlendRGB), Enum(s.blend.destBlendRGB),
       Enum(s.blend.sourceBlendAlpha), Enum(s.blend.destBlendAlpha)]
    case BlendEnabled => [Flag(s.blend.blend)]
    case SampleAlphaToCoverageEnabled => [Flag(s.blend.sampleAlphaToCoverage)]
    case DitherEnabled => [Flag(s.blend.dither)]
    case ColorMask =>
      [Flag(s.blend.colorMaskRed), Flag(s.blend.colorMaskGreen),
       Flag(s.blend.colorMaskBlue), Flag(s.blend.colorMaskAlpha)]
    case BlendColor => [Color(s.blendColor)]
    case DepthMask => [Flag(s.depthStencil.depthMask)]
    case DepthTestEnabled => [Flag(s.depthStencil.depthTest)]
    case DepthFunc => [Enum(s.depthStencil.depthFunc)]
    case StencilTestEnabled => [Flag(s.depthStencil.stencilTest)]
    case StencilFuncsFront =>
      [Enum(s.depthStencil.stencilFunc), Mask(s.depthStencil.stencilMask), Ref(s.stencilRef)]
    case StencilFuncsBack =>
      [Enum(s.depthStencil.stencilBackFunc), Mask(s.depthStencil.stencilBackMask),
       Ref(s.stencilBackRef)]
    case StencilWritemaskFront => [Mask(s.depthStencil.stencilWritemask)]
    case StencilWritemaskBack => [Mask(s.depthStencil.stencilBackWritemask)]
    case StencilOpsFront =>
      [Enum(s.depthStencil.stencilFail), Enum(s.depthStencil.stencilPassDepthFail),
       Enum(s.depthStencil.stencilPassDepthPass)]
    case StencilOpsBack =>
      [Enum(s.depthStencil.stencilBackFail), Enum(s.depthStencil.stencilBackPassDepthFail),
       Enum(s.depthStencil.stencilBackPassDepthPass)]
    case CullFaceEnabled => [Flag(s.raster.cullFace)]
    case CullFace => [Enum(s.raster.cullMode)]
    case FrontFace => [Enum(s.raster.frontFace)]
    case PolygonOffsetFillEnabled => [Flag(s.raster.polygonOffsetFill)]
    case PolygonOffset => [Number(s.raster.polygonOffsetFactor), Number(s.raster.polygonOffsetUnits)]
    case RasterizerDiscardEnabled => [Flag(s.raster.rasterizerDiscard)]
    case Scissor => [Rect(s.scissor)]
    case ScissorTestEnabled => [Flag(s.scissorTest)]
    case DepthRange => [Number(s.nearPlane), Number(s.farPlane)]
    case Viewport => [Rect(s.viewport)]
    case Unhandled(_) => []
  }

  /** The flags one dirty bit sets, as the `switch` in `syncState` decides
      it by comparing the GL state with the snapshot. */
  function Raised(snap: Snapshot, st: GLState, bit: DirtyBit): (r: set<Category>)
  {
    match bit
    case BlendEquations =>
      if st.blend.blendEquationRGB != snap.blend.blendEquationRGB
         || st.blend.blendEquationAlpha != snap.blend.blendEquationAlpha
      then {Blend} else {}
    case BlendFuncs =>
      if st.blend.sourceBlendRGB != snap.blend.sourceBlendRGB
         || st.blend.destBlendRGB != snap.blend.destBlendRGB
         || st.blend.sourceBlendAlpha != snap.blend.sourceBlendAlpha
         || st.blend.destBlendAlpha != snap.blend.destBlendAlpha
      then {Blend} else {}
    case BlendEnabled =>
      if st.blend.blend != snap.blend.blend then {Blend} else {}
    case SampleAlphaToCoverageEnabled =>
      if st.blend.sampleAlphaToCoverage != snap.blend.sampleAlphaToCoverage then {Blend} else {}
    case DitherEnabled =>
      if st.blend.dither != snap.blend.dither then {Blend} else {}
    case ColorMask =>
      if st.blend.colorMaskRed != snap.blend.colorMaskRed
         || st.blend.colorMaskGreen != snap.blend.colorMaskGreen
         || st.blend.colorMaskBlue != snap.blend.colorMaskBlue
         || st.blend.colorMaskAlpha != snap.blend.colorMaskAlpha
      then {Blend} else {}
    case BlendColor =>
      if st.blendColor != snap.blendColor then {Blend} else {}
    case DepthMask =>
      if st.depthStencil.depthMask != snap.depthStencil.depthMask then {DepthStencil} else {}
    case DepthTestEnabled =>
      if st.depthStencil.depthTest != snap.depthStencil.depthTest then {DepthStencil} else {}
    case DepthFunc =>
      if st.depthStencil.depthFunc != snap.depthStencil.depthFunc then {DepthStencil} else {}
    case StencilTestEnabled =>
      if st.depthStencil.stencilTest != snap.depthStencil.stencilTest then {DepthStencil} else {}
    case StencilFuncsFront =>
      if st.depthStencil.stencilFunc != snap.depthStencil.stencilFunc
         || st.depthStencil.stencilMask != snap.depthStencil.stencilMask
         || st.stencilRef != snap.stencilRef
      then {DepthStencil} else {}
    case StencilFuncsBack =>
      if st.depthStencil.stencilBackFunc != snap.depthStencil.stencilBackFunc
         || st.depthStencil.stencilBackMask != snap.depthStencil.stencilBackMask
         || st.stencilBackRef != snap.stencilBackRef
      then {DepthStencil} else {}
    case StencilWritemaskFront =>
      if st.depthStencil.stencilWritemask != snap.depthStencil.stencilWritemask
      then {DepthStencil} else {}
    case StencilWritemaskBack =>
      if st.depthStencil.stencilBackWritemask != snap.depthStencil.stencilBackWritemask
      then {DepthStencil} else {}
    case StencilOpsFront =>
      if st.depthStencil.stencilFail != snap.depthStencil.stencilFail
         || st.depthStencil.stencilPassDepthFail != snap.depthStencil.stencilPassDepthFail
         || st.depthStencil.stencilPassDepthPass != snap.depthStencil.stencilPassDepthPass
      then {DepthStencil} else {}
    case StencilOpsBack =>
      if st.depthStencil.stencilBackFail != snap.depthStencil.stencilBackFail
         || st.depthStencil.stencilBackPassDepthFail != snap.depthStencil.stencilBackPassDepthFail
         || st.depthStencil.stencilBackPassDepthPass != snap.depthStencil.stencilBackPassDepthPass
      then {DepthStencil} else {}
    case CullFaceEnabled =>
      if st.raster.cullFace != snap.raster.cullFace then {Rasterizer} else {}
    case CullFace =>
      if st.raster.cullMode != snap.raster.cullMode then {Rasterizer} else {}
    case FrontFace =>
      if st.raster.frontFace != snap.raster.frontFace then {Rasterizer} else {}
    case PolygonOffsetFillEnabled =>
      if st.raster.polygonOffsetFill != snap.raster.polygonOffsetFill then {Rasterizer} else {}
    case PolygonOffset =>
      if st.raster.polygonOffsetFactor != snap.raster.polygonOffsetFactor
         || st.raster.polygonOffsetUnits != snap.raster.polygonOffsetUnits
      then {Rasterizer} else {}
    case RasterizerDiscardEnabled =>
      if st.raster.rasterizerDiscard != snap.raster.rasterizerDiscard then {Rasterizer} else {}
    case Scissor =>
      if st.scissor != snap.scissor then {Category.Scissor} else {}
    case ScissorTestEnabled =>
      // The rasterizer object is keyed on the scissor-enabled flag.
      if st.scissorTest != snap.scissorEnabled then {Category.Scissor, Rasterizer} else {}
    case DepthRange =>
      if st.nearPlane != snap.near || st.farPlane != snap.far then {Category.Viewport} else {}
    case Viewport =>
      if st.viewport != snap.viewport then {Category.Viewport} else {}
    case Unhandled(_) => {}
  }

  /** A bit raises its flags exactly when one of the values it watches
      differs from the committed one: the `switch` agrees with the static
      table `Owners` and the projection `Watched`. */
  lemma {:induction false} RaisedMatchesTable(snap: Snapshot, st: GLState, bit: DirtyBit)
    ensures Raised(snap, st, bit) == {} <==> Watched(bit, st) == Watched(bit, CommittedView(snap))
    ensures Raised(snap, st, bit) != {} ==> Raised(snap, st, bit) == Owners(bit)
  {
    if Owners(bit) == {Blend} {
      BlendBitMatchesTable(snap, st, bit);
    } else if Owners(bit) == {DepthStencil} {
      DepthStencilBitMatchesTable(snap, st, bit);
    } else if Owners(bit) == {Rasterizer} {
      RasterizerBitMatchesTable(snap, st, bit);
    } else {
      OtherBitMatchesTable(snap, st, bit);
    }
  }

  lemma BlendBitMatchesTable(snap: Snapshot, st: GLState, bit: DirtyBit)
    requires Owners(bit) == {Blend}
    ensures Raised(snap, st, bit) == {} <==> Watched(bit, st) == Watched(bit, CommittedView(snap))
    ensures Raised(snap, st, bit) != {} ==> Raised(snap, st, bit) == Owners(bit)
  {
  }

  lemma DepthStencilBitMatchesTable(snap: Snapshot, st: GLState, bit: DirtyBit)
    requires Owners(bit) == {DepthStencil}
    ensures Raised(snap, st, bit) == {} <==> Watched(bit, st) == Watched(bit, CommittedView(snap))
    ensures Raised(snap, st, bit) != {} ==> Raised(snap, st, bit) == Owners(bit)
  {
  }

  lemma RasterizerBitMatchesTable(snap: Snapshot, st: GLState, bit: DirtyBit)
    requires Owners(bit) == {Rasterizer}
    ensures Raised(snap, st, bit) == {} <==> Watched(bit, st) == Watched(bit, CommittedView(snap))
    ensures Raised(snap, st, bit) != {} ==> Raised(snap, st, bit) == Owners(bit)
  {
  }

  lemma OtherBitMatchesTable(snap: Snapshot, st: GLState, bit: DirtyBit)
    requires Owners(bit) != {Blend} && Owners(bit) != {DepthStencil} && Owners(bit) != {Rasterizer}
    ensures Raised(snap, st, bit) == {} <==> Watched(bit, st) == Watched(bit, CommittedView(snap))
    ensures Raised(snap, st, bit) != {} ==> Raised(snap, st, bit) == Owners(bit)
  {
  }

  lemma RaisedMatchesTableForAll(snap: Snapshot, st: GLState, bits: seq<DirtyBit>)
    ensures forall i :: 0 <= i < |bits| ==>
              (Raised(snap, st, bits[i]) == {} <==> Watched(bits[i], st) == Watched(bits[i], CommittedView(snap)))
              && (Raised(snap, st, bits[i]) != {} ==> Raised(snap, st, bits[i]) == Owners(bits[i]))
  {
    forall i | 0 <= i < |bits| {
      RaisedMatchesTable(snap, st, bits[i]);
    }
  }

  /** `syncState`: process the dirty bits one after another. Only flags
      change, and a flag ends up set exactly when it was set before or some
      bit in `bits` raises it. */
  function SyncState(m: Manager, st: GLState, bits: seq<DirtyBit>): (r: Manager)
    ensures r == m.(dirty := r.dirty)
    ensures forall c :: c in r.dirty <==>
                          c in m.dirty || exists i :: 0 <= i < |bits| && c in Raised(m.snap, st, bits[i])
    ensures forall c :: c in r.dirty <==>
                          c in m.dirty
                          || exists i :: 0 <= i < |bits| && c in Owners(bits[i])
                                         && Watched(bits[i], st) != Watched(bits[i], CommittedView(m.snap))
    decreases |bits|
  {
    RaisedMatchesTableForAll(m.snap, st, bits);
    if |bits| == 0 then m
    else SyncState(m.(dirty := m.dirty + Raised(m.snap, st, bits[0])), st, bits[1..])
  }

  /** `updateStencilSizeIfChanged`: record the stencil bit depth, and mark
      the depth-stencil state dirty when the attachment is new or its
      stencil size differs. */
  function UpdateStencilSizeIfChanged(m: Manager, depthStencilInitialized: bool, stencilSize: Uint32)
    : (r: Manager)
    ensures r.snap == m.snap.(stencilSize := stencilSize)
    ensures r == m.(dirty := r.dirty, snap := r.snap)
    ensures r.dirty == m.dirty || r.dirty == m.dirty + {DepthStencil}
    ensures DepthStencil in r.dirty <==>
              DepthStencil in m.dirty || !depthStencilInitialized || stencilSize != m.snap.stencilSize
  {
    if !depthStencilInitialized || stencilSize != m.snap.stencilSize then
      m.(snap := m.snap.(stencilSize := stencilSize), dirty := m.dirty + {DepthStencil})
    else m
  }

  /** `setViewportBounds`: on the reduced feature levels, record the render
      target's size and mark the viewport dirty when it changed; on the
      others, do nothing. */
  function SetViewportBounds(m: Manager, width: int, height: int): (r: Manager)
    ensures !ReducedFeatureLevel(m) ==> r == m
    ensures ReducedFeatureLevel(m) ==> r.snap.viewportBounds == Extents(width, height)
    ensures r == m.(dirty := r.dirty, snap := m.snap.(viewportBounds := r.snap.viewportBounds))
    ensures r.dirty == m.dirty || r.dirty == m.dirty + {Category.Viewport}
    ensures Category.Viewport in r.dirty <==>
              Category.Viewport in m.dirty
              || (ReducedFeatureLevel(m) && m.snap.viewportBounds != Extents(width, height))
  {
    if ReducedFeatureLevel(m)
       && (m.snap.viewportBounds.width != width || m.snap.viewportBounds.height != height)
    then
      m.(snap := m.snap.(viewportBounds := Extents(width, height)),
         dirty := m.dirty + {Category.Viewport})
    else m
  }

  /** The flags a change of the fast-present mode sets: it flips the Y axis
      (viewport, scissor) and the winding order (rasterizer). */
  const PresentPathFlags: set<Category> := {Category.Viewport, Category.Scissor, Rasterizer}

  /** The colour-buffer height of the attachment, 0 when there is none. */
  function AttachmentHeight(attachment: Option<Extents>): int
  {
    if attachment.Some? then attachment.value.height else 0
  }

  /** `updatePresentPath`: record whether the fast present path is active
      and, if it is, the colour-buffer height the Y flip uses. */
  function UpdatePresentPath(m: Manager, active: bool, attachment: Option<Extents>): (r: Manager)
    ensures r.snap.presentFast == active
    ensures active ==> r.snap.presentHeight == AttachmentHeight(attachment)
    ensures r == m.(dirty := r.dirty, snap := r.snap)
    ensures r.snap == m.snap.(presentFast := r.snap.presentFast, presentHeight := r.snap.presentHeight)
    ensures r.dirty == m.dirty || r.dirty == m.dirty + PresentPathFlags
    ensures m.snap.presentFast != active
            || (active && AttachmentHeight(attachment) != m.snap.presentHeight)
            ==> PresentPathFlags <= r.dirty
    ensures m.snap.presentFast == active
            && (active ==> AttachmentHeight(attachment) == m.snap.presentHeight)
            ==> r == m
  {
    var colorBufferHeight := AttachmentHeight(attachment);
    if m.snap.presentFast != active || (active && colorBufferHeight != m.snap.presentHeight) then
      m.(snap := m.snap.(presentFast := active, presentHeight := colorBufferHeight),
         dirty := m.dirty + PresentPathFlags)
    else m
  }
}
