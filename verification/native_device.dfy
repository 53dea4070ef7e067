/** The two collaborators the state manager drives: the render-state cache,
    which turns a descriptor into a native state object and may fail, and
    the D3D11 device context, whose setter calls are recorded as events. */
module NativeDevice {
  import opened Wrappers
  import opened GLTypes

  /** An opaque native state-object pointer (`ID3D11BlendState *`, ...). */
  type Handle = nat

  /** Identity of the framebuffer handed to the blend-state lookup (its
      render-target formats are part of the cache key). */
  type FramebufferId = nat

  datatype BlendKey = BlendKey(framebuffer: FramebufferId, state: BlendState)

  datatype DepthStencilKey =
    DepthStencilKey(state: DepthStencilState, disableDepth: bool, disableStencil: bool)

  datatype RasterizerKey = RasterizerKey(state: RasterizerState, scissorEnabled: bool)

  /** `RenderStateCache`: a deterministic lookup from key to handle that may
      fail. Being a function, equal keys always give the same answer. */
  datatype StateCache = StateCache(
    blend: BlendKey -> Result<Handle>,
    depthStencil: DepthStencilKey -> Result<Handle>,
    rasterizer: RasterizerKey -> Result<Handle>)

  /** `D3D11_RECT`. */
  datatype D3DRect = D3DRect(left: int, top: int, right: int, bottom: int)

  /** `D3D11_VIEWPORT`; the integer corner and extent are exactly
      representable as floats for the sizes a render target can have. */
  datatype D3DViewport =
    D3DViewport(topLeftX: int, topLeftY: int, width: int, height: int, minDepth: real, maxDepth: real)

  /** One call on `ID3D11DeviceContext`. */
  datatype NativeCall =
    | OMSetBlendState(blendState: Handle, blendFactor: seq<real>, sampleMask: Uint32)
    | OMSetDepthStencilState(depthStencilState: Handle, stencilRef: Uint32)
    | RSSetState(rasterizerState: Handle)
    | RSSetScissorRects(rect: D3DRect)
    | RSSetViewports(viewport: D3DViewport)

  /** `D3D_FEATURE_LEVEL_9_3`; levels at or below it get the reduced-capability path. */
  const FEATURE_LEVEL_9_3: nat := 0x9300

  /** `D3D11_VIEWPORT_BOUNDS_MAX`: no D3D11 device reports a larger viewport
      dimension, so `gl::Caps` built from a device stay within it. */
  const D3D11_VIEWPORT_BOUNDS_MAX: nat := 32767

  /** The viewport limits of `gl::Caps`. */
  datatype Caps = Caps(maxViewportWidth: Uint32, maxViewportHeight: Uint32)
}
