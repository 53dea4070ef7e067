/** The state of `rx::StateManager11`: the committed snapshot of what was
    last sent to the device, the five coarse dirty flags, and the device
    capabilities fixed at initialisation. */
module StateManager {
  import opened Wrappers
  import opened GLTypes
  import opened NativeDevice

  /** The five coarse state categories, one dirty flag each. */
  datatype Category = Blend | DepthStencil | Rasterizer | Scissor | Viewport

  /** The committed snapshot (the `mCur...` members). */
  datatype Snapshot = Snapshot(
    blend: BlendState,
    blendColor: ColorF,
    sampleMask: Uint32,
    depthStencil: DepthStencilState,
    stencilRef: Int32,
    stencilBackRef: Int32,
    stencilSize: Uint32,
    disableDepth: Option<bool>,
    disableStencil: Option<bool>,
    raster: RasterizerState,
    scissorEnabled: bool,
    scissor: Rectangle,
    viewport: Rectangle,
    near: real,
    far: real,
    viewportBounds: Extents,
    presentFast: bool,
    presentHeight: int)

  /** A state manager. `dirty` holds the categories whose flag is set;
      `viewScaleY` is the second component of the shader-visible view
      scale, unset until the first viewport commit. */
  datatype Manager = Manager(
    dirty: set<Category>,
    snap: Snapshot,
    featureLevel: nat,
    viewScaleY: Option<int>)

  /** The result of a commit handler: the new manager, the device calls it
      made (in order) and the error it returned, if any. */
  datatype Step = Step(mgr: Manager, calls: seq<NativeCall>, error: Option<Error>)

  /** True when the device runs on the reduced-capability path. */
  predicate ReducedFeatureLevel(m: Manager)
  {
    m.featureLevel <= FEATURE_LEVEL_9_3
  }

  /** The snapshot as the portable state it stands for, so that the GL
      state and the committed values can be compared field by field. */
  function CommittedView(s: Snapshot): GLState
  {
    GLState(s.blend, s.blendColor, s.depthStencil, s.stencilRef, s.stencilBackRef,
            s.raster, s.scissor, s.scissorEnabled, s.near, s.far, s.viewport)
  }

  const DefaultBlendState: BlendState :=
    BlendState(false, GL_ONE, GL_ZERO, GL_ONE, GL_ZERO, GL_FUNC_ADD, GL_FUNC_ADD,
               true, true, true, true, false, false)

  /** The constructor's depth-stencil defaults. The constructor never assigns
      `stencilFunc`, so its initial value is a parameter; it assigns the
      front `stencilMask` the boolean `true`, which converts to 1. */
  function DefaultDepthStencilState(unsetStencilFunc: GLenum): DepthStencilState
  {
    DepthStencilState(false, GL_LESS, true, false, unsetStencilFunc, 1,
                      GL_KEEP, GL_KEEP, GL_KEEP, ALL_BITS,
                      GL_ALWAYS, ALL_BITS, GL_KEEP, GL_KEEP, GL_KEEP, ALL_BITS)
  }

  const DefaultRasterizerState: RasterizerState :=
    RasterizerState(false, false, GL_BACK, GL_CCW, false, 0.0, 0.0, false, false)

  /** The constructor followed by `initialize` with the device's feature level. */
  function Initial(featureLevel: nat, unsetStencilFunc: GLenum): (m: Manager)
    ensures m.dirty == {}
    ensures m.snap.disableDepth.None? && m.snap.disableStencil.None?
    ensures !m.snap.presentFast && !m.snap.scissorEnabled
    ensures m.featureLevel == featureLevel
  {
    Manager(
      {},
      Snapshot(
        DefaultBlendState, ColorF(0.0, 0.0, 0.0, 0.0), 0,
        DefaultDepthStencilState(unsetStencilFunc), 0, 0, 0, None, None,
        DefaultRasterizerState,
        false, Rectangle(0, 0, 0, 0),
        Rectangle(0, 0, 0, 0), 0.0, 0.0, Extents(0, 0),
        false, 0),
      featureLevel,
      None)
  }
}
