/** The portable (GL-side) state values the state manager reads: the
    descriptor records of the blend, depth-stencil and rasterizer stages,
    rectangles, colours, the current GL state and the fine-grained dirty
    bits that announce changes to it. */
module GLTypes {

  /** A GL enumerant (`GLenum`). */
  type GLenum = nat

  /** A `GLuint` bit mask (stencil masks and write masks). */
  type GLMask = bv32

  /** A signed 32-bit `int` / `GLint`. */
  type Int32 = x: int | -0x8000_0000 <= x < 0x8000_0000

  /** An `unsigned int` / `UINT`. */
  type Uint32 = x: int | 0 <= x < 0x1_0000_0000

  const GL_ZERO: GLenum := 0
  const GL_ONE: GLenum := 1
  const GL_LESS: GLenum := 0x0201
  const GL_ALWAYS: GLenum := 0x0207
  const GL_BACK: GLenum := 0x0405
  const GL_CW: GLenum := 0x0900
  const GL_CCW: GLenum := 0x0901
  const GL_KEEP: GLenum := 0x1E00
  const GL_CONSTANT_ALPHA: GLenum := 0x8003
  const GL_ONE_MINUS_CONSTANT_ALPHA: GLenum := 0x8004
  const GL_FUNC_ADD: GLenum := 0x8006

  /** `static_cast<GLuint>(-1)`: every bit set. */
  const ALL_BITS: GLMask := 0xFFFF_FFFF

  /** `gl::ColorF`; the floats are compared only for equality. */
  datatype ColorF = ColorF(red: real, green: real, blue: real, alpha: real)

  /** `gl::Rectangle` (origin and extent, GL integers). */
  datatype Rectangle = Rectangle(x: int, y: int, width: int, height: int)

  /** `gl::Extents` restricted to the two dimensions the manager uses. */
  datatype Extents = Extents(width: int, height: int)

  datatype BlendState = BlendState(
    blend: bool,
    sourceBlendRGB: GLenum,
    destBlendRGB: GLenum,
    sourceBlendAlpha: GLenum,
    destBlendAlpha: GLenum,
    blendEquationRGB: GLenum,
    blendEquationAlpha: GLenum,
    colorMaskRed: bool,
    colorMaskGreen: bool,
    colorMaskBlue: bool,
    colorMaskAlpha: bool,
    sampleAlphaToCoverage: bool,
    dither: bool)

  datatype DepthStencilState = DepthStencilState(
    depthTest: bool,
    depthFunc: GLenum,
    depthMask: bool,
    stencilTest: bool,
    stencilFunc: GLenum,
    stencilMask: GLMask,
    stencilFail: GLenum,
    stencilPassDepthFail: GLenum,
    stencilPassDepthPass: GLenum,
    stencilWritemask: GLMask,
    stencilBackFunc: GLenum,
    stencilBackMask: GLMask,
    stencilBackFail: GLenum,
    stencilBackPassDepthFail: GLenum,
    stencilBackPassDepthPass: GLenum,
    stencilBackWritemask: GLMask)

  datatype RasterizerState = RasterizerState(
    rasterizerDiscard: bool,
    cullFace: bool,
    cullMode: GLenum,
    frontFace: GLenum,
    polygonOffsetFill: bool,
    polygonOffsetFactor: real,
    polygonOffsetUnits: real,
    pointDrawMode: bool,
    multiSample: bool)

  /** The parts of `gl::State` that the state manager reads. */
  datatype GLState = GLState(
    blend: BlendState,
    blendColor: ColorF,
    depthStencil: DepthStencilState,
    stencilRef: Int32,
    stencilBackRef: Int32,
    raster: RasterizerState,
    scissor: Rectangle,
    scissorTest: bool,
    nearPlane: real,
    farPlane: real,
    viewport: Rectangle)

  /** What the depth-stencil handler asks of the draw framebuffer. */
  datatype FramebufferInfo = FramebufferInfo(hasDepth: bool, hasStencil: bool)

  /** The `gl::State::DirtyBits` the state manager reacts to; every other
      bit of the GL dirty-bit set is `Unhandled`. */
  datatype DirtyBit =
    | BlendEquations
    | BlendFuncs
    | BlendEnabled
    | SampleAlphaToCoverageEnabled
    | DitherEnabled
    | ColorMask
    | BlendColor
    | DepthMask
    | DepthTestEnabled
    | DepthFunc
    | StencilTestEnabled
    | StencilFuncsFront
    | StencilFuncsBack
    | StencilWritemaskFront
    | StencilWritemaskBack
    | StencilOpsFront
    | StencilOpsBack
    | CullFaceEnabled
    | CullFace
    | FrontFace
    | PolygonOffsetFillEnabled
    | PolygonOffset
    | RasterizerDiscardEnabled
    | Scissor
    | ScissorTestEnabled
    | DepthRange
    | Viewport
    | Unhandled(index: nat)

  /** `gl::clamp`: a value below (or equal to) `lo` becomes `lo`, one above
      `hi` becomes `hi`. */
  function Clamp(x: int, lo: int, hi: int): (r: int)
    ensures lo <= hi ==> lo <= r <= hi
    ensures lo <= x <= hi ==> r == x
    ensures lo <= hi && x < lo ==> r == lo
    ensures lo <= hi && hi < x ==> r == hi
  {
    if x > lo then (if x > hi then hi else x) else lo
  }

  /** `gl::clamp01` on depth values. */
  function Clamp01(z: real): (r: real)
    ensures 0.0 <= r <= 1.0
    ensures 0.0 <= z <= 1.0 ==> r == z
    ensures z < 0.0 ==> r == 0.0
    ensures 1.0 < z ==> r == 1.0
  {
    if z > 0.0 then (if z > 1.0 then 1.0 else z) else 0.0
  }
}
