/** The commit handlers, called before a draw. Each one does nothing when
    there is nothing to do: its flag is clear and, for blend, the sample mask
    is unchanged, and, for depth-stencil, the emulation booleans are known and
    unchanged. Otherwise it adjusts the GL value for D3D11, makes at most one
    device call (scissor only while the test is enabled), records the
    committed value and clears its flag. Blend, depth-stencil and rasterizer
    first resolve a state object through the cache, which may fail: the error
    is returned and nothing else happens, so the flag stays set and the next
    commit retries. Scissor and viewport use no cache and cannot fail. */
module Commit {
  import opened Wrappers
  import opened GLTypes
  import opened NativeDevice
  import opened StateManager
  import opened Compat

  /** The blend handler runs when its flag is set or the sample mask moved. */
  predicate BlendPending(m: Manager, sampleMask: Uint32)
  {
    Blend in m.dirty || sampleMask != m.snap.sampleMask
  }

  /** `setBlendState`. */
  function SetBlendState(m: Manager, cache: StateCache, framebuffer: FramebufferId,
                         bs: BlendState, color: ColorF, sampleMask: Uint32): (s: Step)
    ensures |s.calls| <= 1
    ensures !BlendPending(m, sampleMask) ==> s == Step(m, [], None)
    ensures s.error.Some? ==> s.mgr == m && s.calls == []
    ensures s.error.Some? ==> cache.blend(BlendKey(framebuffer, bs)) == Err(s.error.value)
    ensures s.error == None <==> !BlendPending(m, sampleMask) || cache.blend(BlendKey(framebuffer, bs)).Ok?
    ensures BlendPending(m, sampleMask) && s.error == None ==>
              && s.calls == [OMSetBlendState(cache.blend(BlendKey(framebuffer, bs)).value,
                                             BlendFactor(bs, color), sampleMask)]
              && s.mgr == m.(dirty := m.dirty - {Blend},
                             snap := m.snap.(blend := bs, blendColor := color, sampleMask := sampleMask))
  {
    if Blend !in m.dirty && sampleMask == m.snap.sampleMask then Step(m, [], None)
    else
      match cache.blend(BlendKey(framebuffer, bs))
      case Err(e) => Step(m, [], Some(e))
      case Ok(h) =>
        Step(m.(dirty := m.dirty - {Blend},
                snap := m.snap.(blend := bs, blendColor := color, sampleMask := sampleMask)),
             [OMSetBlendState(h, BlendFactor(bs, color), sampleMask)],
             None)
  }

  /** The depth-stencil handler is skipped only when its flag is clear and
      both remembered emulation booleans are known and unchanged. */
  predicate DepthStencilSkipped(m: Manager, fb: FramebufferInfo)
  {
    var e := DepthStencilEmulation(fb);
    && DepthStencil !in m.dirty
    && m.snap.disableDepth == Some(e.disableDepth)
    && m.snap.disableStencil == Some(e.disableStencil)
  }

  /** `setDepthStencilState`. */
  function SetDepthStencilState(m: Manager, cache: StateCache, st: GLState, fb: FramebufferInfo)
    : (s: Step)
    requires !DepthStencilSkipped(m, fb) ==>
               StencilFacesAgree(st.depthStencil, st.stencilRef, st.stencilBackRef, m.snap.stencilSize)
    ensures |s.calls| <= 1
    ensures DepthStencilSkipped(m, fb) ==> s == Step(m, [], None)
    ensures s.error.Some? ==> s.mgr == m && s.calls == []
    ensures !DepthStencilSkipped(m, fb) && s.error == None ==>
              var e := DepthStencilEmulation(fb);
              var key := DepthStencilKey(st.depthStencil, e.disableDepth, e.disableStencil);
              && cache.depthStencil(key).Ok?
              && s.calls == [OMSetDepthStencilState(cache.depthStencil(key).value,
                                                    ClampStencilRef(st.stencilRef))]
              && s.mgr == m.(dirty := m.dirty - {DepthStencil},
                             snap := m.snap.(depthStencil := st.depthStencil,
                                             stencilRef := st.stencilRef,
                                             stencilBackRef := st.stencilBackRef,
                                             disableDepth := Some(e.disableDepth),
                                             disableStencil := Some(e.disableStencil)))
    ensures !DepthStencilSkipped(m, fb) && s.error.Some? ==>
              var e := DepthStencilEmulation(fb);
              cache.depthStencil(DepthStencilKey(st.depthStencil, e.disableDepth, e.disableStencil))
                == Err(s.error.value)
  {
    var e := DepthStencilEmulation(fb);
    if DepthStencil !in m.dirty && m.snap.disableDepth == Some(e.disableDepth)
       && m.snap.disableStencil == Some(e.disableStencil)
    then Step(m, [], None)
    else
      match cache.depthStencil(DepthStencilKey(st.depthStencil, e.disableDepth, e.disableStencil))
      case Err(err) => Step(m, [], Some(err))
      case Ok(h) =>
        Step(m.(dirty := m.dirty - {DepthStencil},
                snap := m.snap.(depthStencil := st.depthStencil,
                                stencilRef := st.stencilRef,
                                stencilBackRef := st.stencilBackRef,
                                disableDepth := Some(e.disableDepth),
                                disableStencil := Some(e.disableStencil))),
             [OMSetDepthStencilState(h, ClampStencilRef(st.stencilRef))],
             None)
  }

  /** The rasterizer state the cache is asked for: winding swapped on the
      fast present path, the GL state itself otherwise. */
  function CacheRasterState(presentFast: bool, rs: RasterizerState): (r: RasterizerState)
    requires presentFast ==> IsWinding(rs.frontFace)
    ensures !presentFast ==> r == rs
    ensures presentFast ==> r.frontFace != rs.frontFace && r == rs.(frontFace := r.frontFace)
    ensures presentFast ==> IsWinding(r.frontFace) && FlipFrontFace(r) == rs
  {
    if presentFast then FlipFrontFace(rs) else rs
  }

  /** `setRasterizerState`. The snapshot keeps the state as GL sees it, not
      the flipped one; the cache key also carries the committed
      scissor-enabled flag. */
  function SetRasterizerState(m: Manager, cache: StateCache, rs: RasterizerState): (s: Step)
    requires Rasterizer in m.dirty && m.snap.presentFast ==> IsWinding(rs.frontFace)
    ensures |s.calls| <= 1
    ensures Rasterizer !in m.dirty ==> s == Step(m, [], None)
    ensures s.error.Some? ==> s.mgr == m && s.calls == []
    ensures Rasterizer in m.dirty ==>
              var key := RasterizerKey(CacheRasterState(m.snap.presentFast, rs), m.snap.scissorEnabled);
              && (s.error == None <==> cache.rasterizer(key).Ok?)
              && (s.error.Some? ==> cache.rasterizer(key) == Err(s.error.value))
              && (s.error == None ==>
                    && s.calls == [RSSetState(cache.rasterizer(key).value)]
                    && s.mgr == m.(dirty := m.dirty - {Rasterizer}, snap := m.snap.(raster := rs)))
  {
    if Rasterizer !in m.dirty then Step(m, [], None)
    else
      var key := RasterizerKey(CacheRasterState(m.snap.presentFast, rs), m.snap.scissorEnabled);
      match cache.rasterizer(key)
      case Err(e) => Step(m, [], Some(e))
      case Ok(h) =>
        Step(m.(dirty := m.dirty - {Rasterizer}, snap := m.snap.(raster := rs)), [RSSetState(h)], None)
  }

  /** `setScissorRectangle`: the device sees a rectangle only while the
      scissor test is enabled, but the snapshot and flag are updated either
      way. It cannot fail. */
  function SetScissorRectangle(m: Manager, scissor: Rectangle, enabled: bool): (s: Step)
    ensures s.error == None
    ensures Category.Scissor !in m.dirty ==> s == Step(m, [], None)
    ensures Category.Scissor in m.dirty ==>
              && (s.calls != [] <==> enabled)
              && (enabled ==>
                    s.calls == [RSSetScissorRects(ScissorRect(scissor, m.snap.presentFast,
                                                              m.snap.presentHeight))])
              && s.mgr == m.(dirty := m.dirty - {Category.Scissor},
                             snap := m.snap.(scissor := scissor, scissorEnabled := enabled))
  {
    if Category.Scissor !in m.dirty then Step(m, [], None)
    else
      var calls := if enabled
                   then [RSSetScissorRects(ScissorRect(scissor, m.snap.presentFast, m.snap.presentHeight))]
                   else [];
      Step(m.(dirty := m.dirty - {Category.Scissor},
              snap := m.snap.(scissor := scissor, scissorEnabled := enabled)),
           calls, None)
  }

  /** The viewport limits of this manager. */
  function LimitsOf(m: Manager, caps: Caps): Limits
  {
    ViewportLimits(caps, ReducedFeatureLevel(m), m.snap.viewportBounds)
  }

  /** The `D3D11_VIEWPORT` for a GL viewport: corner and extent clamped to
      the limits, the vertical origin flipped on the fast present path
      (from the clamped rectangle), and the depth range clamped to [0, 1]. */
  function NativeViewport(m: Manager, caps: Caps, viewport: Rectangle, zNear: real, zFar: real)
    : (v: D3DViewport)
    ensures 0.0 <= v.minDepth <= 1.0 && 0.0 <= v.maxDepth <= 1.0
    ensures 0.0 <= zNear <= 1.0 ==> v.minDepth == zNear
    ensures 0.0 <= zFar <= 1.0 ==> v.maxDepth == zFar
    ensures zNear < 0.0 ==> v.minDepth == 0.0
    ensures 1.0 < zNear ==> v.minDepth == 1.0
    ensures zFar < 0.0 ==> v.maxDepth == 0.0
    ensures 1.0 < zFar ==> v.maxDepth == 1.0
    ensures var l := LimitsOf(m, caps);
            WellFormedLimits(l) ==>
              && l.minX <= v.topLeftX && 0 <= v.width && v.topLeftX + v.width <= l.maxX
              && 0 <= v.height && v.height <= Max0(viewport.height)
    ensures var c := ClampViewport(LimitsOf(m, caps), viewport);
            && v.topLeftX == c.x && v.width == c.width && v.height == c.height
            && (m.snap.presentFast ==> FlipY(m.snap.presentHeight, v.topLeftY, v.height) == c.y)
            && (!m.snap.presentFast ==> v.topLeftY == c.y)
    ensures !m.snap.presentFast && FitsLimits(LimitsOf(m, caps), viewport) ==>
              v.topLeftX == viewport.x && v.topLeftY == viewport.y
              && v.width == viewport.width && v.height == viewport.height
  {
    var c := ClampViewport(LimitsOf(m, caps), viewport);
    var topLeftY := if m.snap.presentFast then FlipY(m.snap.presentHeight, c.y, c.height) else c.y;
    D3DViewport(c.x, topLeftY, c.width, c.height, Clamp01(zNear), Clamp01(zFar))
  }

  /** The Y component of the shader-visible view scale: GL's Y axis points
      up, D3D's down, except on the fast present path which already flips. */
  function ViewScaleY(presentFast: bool): (r: int)
    ensures r == 1 || r == -1
    ensures r == 1 <==> presentFast
  {
    if presentFast then 1 else -1
  }

  /** `setViewport`. The snapshot keeps the requested rectangle and the
      clamped depth range. It cannot fail. */
  function SetViewport(m: Manager, caps: Caps, viewport: Rectangle, zNear: real, zFar: real)
    : (s: Step)
    ensures s.error == None
    ensures Category.Viewport !in m.dirty ==> s == Step(m, [], None)
    ensures Category.Viewport in m.dirty ==>
              var v := NativeViewport(m, caps, viewport, zNear, zFar);
              && s.calls == [RSSetViewports(v)]
              && s.mgr == m.(dirty := m.dirty - {Category.Viewport},
                             snap := m.snap.(viewport := viewport, near := v.minDepth, far := v.maxDepth),
                             viewScaleY := Some(ViewScaleY(m.snap.presentFast)))
  {
    if Category.Viewport !in m.dirty then Step(m, [], None)
    else
      var v := NativeViewport(m, caps, viewport, zNear, zFar);
      Step(m.(dirty := m.dirty - {Category.Viewport},
              snap := m.snap.(viewport := viewport, near := Clamp01(zNear), far := Clamp01(zFar)),
              viewScaleY := Some(ViewScaleY(m.snap.presentFast))),
           [RSSetViewports(v)], None)
  }
}
