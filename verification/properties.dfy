/** Properties that relate several calls: suppression and fan-out of the
    dirty tracker, idempotence of the notifications and of every commit
    handler, retry after a cache failure, the flips being involutions, and
    a commit followed by a sync of the same state being quiet. */
module Properties {
  import opened Wrappers
  import opened GLTypes
  import opened NativeDevice
  import opened StateManager
  import opened DirtyTracker
  import opened Compat
  import opened Commit

  // ---------------------------------------------------------------------
  // Dirty tracking

  /** Suppression: bits whose watched values all equal the committed ones
      (and unhandled bits, which watch nothing) change nothing at all. */
  lemma {:induction false} EqualValuesNeverDirty(m: Manager, st: GLState, bits: seq<DirtyBit>)
    requires forall i :: 0 <= i < |bits| ==> Watched(bits[i], st) == Watched(bits[i], CommittedView(m.snap))
    ensures SyncState(m, st, bits) == m
  {
    var r := SyncState(m, st, bits);
    forall i | 0 <= i < |bits|
      ensures Raised(m.snap, st, bits[i]) == {}
    {
      RaisedMatchesTable(m.snap, st, bits[i]);
    }
    assert r.dirty == m.dirty;
  }

  /** Unhandled bits change nothing, whatever the GL state holds. */
  lemma {:induction false} UnhandledBitsChangeNothing(m: Manager, st: GLState, bits: seq<DirtyBit>)
    requires forall i :: 0 <= i < |bits| ==> bits[i].Unhandled?
    ensures SyncState(m, st, bits) == m
  {
    forall i | 0 <= i < |bits|
      ensures Watched(bits[i], st) == Watched(bits[i], CommittedView(m.snap))
    {
    }
    EqualValuesNeverDirty(m, st, bits);
  }

  /** The converse of suppression: a bit whose watched values differ sets
      every flag the table gives it. */
  lemma {:induction false} ChangedValueDirtiesOwners(m: Manager, st: GLState, bits: seq<DirtyBit>, i: nat)
    requires i < |bits|
    requires Watched(bits[i], st) != Watched(bits[i], CommittedView(m.snap))
    ensures Owners(bits[i]) <= SyncState(m, st, bits).dirty
  {
    RaisedMatchesTable(m.snap, st, bits[i]);
  }

  /** Fan-out: toggling the scissor test dirties both the scissor and the
      rasterizer state. */
  lemma {:induction false} ScissorToggleDirtiesRasterizer(m: Manager, st: GLState, bits: seq<DirtyBit>)
    requires ScissorTestEnabled in bits
    requires st.scissorTest != m.snap.scissorEnabled
    ensures {Category.Scissor, Rasterizer} <= SyncState(m, st, bits).dirty
  {
    var i :| 0 <= i < |bits| && bits[i] == ScissorTestEnabled;
    ChangedValueDirtiesOwners(m, st, bits, i);
  }

  /** The order and multiplicity of the dirty bits do not matter: only the
      set of bits does. */
  lemma {:induction false} SyncDependsOnlyOnBitSet(m: Manager, st: GLState, a: seq<DirtyBit>, b: seq<DirtyBit>)
    requires forall x :: x in a <==> x in b
    ensures SyncState(m, st, a) == SyncState(m, st, b)
  {
    var ra := SyncState(m, st, a);
    var rb := SyncState(m, st, b);
    forall c | c in ra.dirty
      ensures c in rb.dirty
    {
      if c !in m.dirty {
        var i :| 0 <= i < |a| && c in Raised(m.snap, st, a[i]);
        assert a[i] in b;
        var j :| 0 <= j < |b| && b[j] == a[i];
      }
    }
    forall c | c in rb.dirty
      ensures c in ra.dirty
    {
      if c !in m.dirty {
        var j :| 0 <= j < |b| && c in Raised(m.snap, st, b[j]);
        assert b[j] in a;
        var i :| 0 <= i < |a| && a[i] == b[j];
      }
    }
  }

  /** Setting a flag is idempotent: syncing the same bits twice is the same
      as syncing them once. */
  lemma {:induction false} SyncIsIdempotent(m: Manager, st: GLState, bits: seq<DirtyBit>)
    ensures SyncState(SyncState(m, st, bits), st, bits) == SyncState(m, st, bits)
  {
  }

  /** Repeating the same present-path notification changes nothing. */
  lemma {:induction false} UpdatePresentPathIsIdempotent(m: Manager, active: bool, attachment: Option<Extents>)
    ensures var r := UpdatePresentPath(m, active, attachment);
            UpdatePresentPath(r, active, attachment) == r
  {
  }

  /** Repeating the same stencil-size notification for an initialised
      attachment changes nothing. */
  lemma {:induction false} UpdateStencilSizeIsIdempotent(m: Manager, stencilSize: Uint32)
    ensures var r := UpdateStencilSizeIfChanged(m, true, stencilSize);
            UpdateStencilSizeIfChanged(r, true, stencilSize) == r
  {
  }

  /** Repeating the same viewport-bounds notification changes nothing. */
  lemma {:induction false} SetViewportBoundsIsIdempotent(m: Manager, width: int, height: int)
    ensures var r := SetViewportBounds(m, width, height);
            SetViewportBounds(r, width, height) == r
  {
  }

  // ---------------------------------------------------------------------
  // Commit discipline

  /** After a successful blend commit, the same commit emits nothing. */
  lemma {:induction false} BlendCommitIsIdempotent(m: Manager, cache: StateCache, framebuffer: FramebufferId,
                                                   bs: BlendState, color: ColorF, sampleMask: Uint32)
    requires SetBlendState(m, cache, framebuffer, bs, color, sampleMask).error == None
    ensures var s := SetBlendState(m, cache, framebuffer, bs, color, sampleMask);
            SetBlendState(s.mgr, cache, framebuffer, bs, color, sampleMask) == Step(s.mgr, [], None)
  {
  }

  /** A failed blend commit leaves everything as it was, so the next
      commit retries the same lookup and fails the same way. */
  lemma {:induction false} FailedBlendCommitRetries(m: Manager, cache: StateCache, framebuffer: FramebufferId,
                                                    bs: BlendState, color: ColorF, sampleMask: Uint32)
    requires SetBlendState(m, cache, framebuffer, bs, color, sampleMask).error.Some?
    ensures var s := SetBlendState(m, cache, framebuffer, bs, color, sampleMask);
            BlendPending(s.mgr, sampleMask)
            && SetBlendState(s.mgr, cache, framebuffer, bs, color, sampleMask) == s
  {
  }

  /** After a successful depth-stencil commit, the same commit is skipped. */
  lemma {:induction false} DepthStencilCommitIsIdempotent(m: Manager, cache: StateCache, st: GLState,
                                                          fb: FramebufferInfo)
    requires !DepthStencilSkipped(m, fb) ==>
               StencilFacesAgree(st.depthStencil, st.stencilRef, st.stencilBackRef, m.snap.stencilSize)
    requires SetDepthStencilState(m, cache, st, fb).error == None
    ensures var s := SetDepthStencilState(m, cache, st, fb);
            DepthStencilSkipped(s.mgr, fb)
            && SetDepthStencilState(s.mgr, cache, st, fb) == Step(s.mgr, [], None)
  {
  }

  /** A new attachment kind forces the depth-stencil commit even with a
      clear flag: switching between depth-only and stencil-only changes the
      emulation booleans. */
  lemma {:induction false} AttachmentChangeForcesDepthStencil(m: Manager, fb: FramebufferInfo, fb': FramebufferInfo)
    requires DepthStencilSkipped(m, fb)
    requires fb.hasDepth != fb.hasStencil && fb'.hasDepth != fb'.hasStencil && fb != fb'
    ensures !DepthStencilSkipped(m, fb')
  {
  }

  /** After a successful rasterizer commit, the same commit emits nothing. */
  lemma {:induction false} RasterizerCommitIsIdempotent(m: Manager, cache: StateCache, rs: RasterizerState)
    requires Rasterizer in m.dirty && m.snap.presentFast ==> IsWinding(rs.frontFace)
    requires SetRasterizerState(m, cache, rs).error == None
    ensures var s := SetRasterizerState(m, cache, rs);
            SetRasterizerState(s.mgr, cache, rs) == Step(s.mgr, [], None)
  {
  }

  /** The second scissor commit emits nothing. */
  lemma {:induction false} ScissorCommitIsIdempotent(m: Manager, scissor: Rectangle, enabled: bool)
    ensures var s := SetScissorRectangle(m, scissor, enabled);
            SetScissorRectangle(s.mgr, scissor, enabled) == Step(s.mgr, [], None)
  {
  }

  /** The second viewport commit emits nothing. */
  lemma {:induction false} ViewportCommitIsIdempotent(m: Manager, caps: Caps, viewport: Rectangle,
                                                      zNear: real, zFar: real)
    ensures var s := SetViewport(m, caps, viewport, zNear, zFar);
            SetViewport(s.mgr, caps, viewport, zNear, zFar) == Step(s.mgr, [], None)
  {
  }

  /** Once the snapshot holds exactly the GL state, syncing that state with
      any bits leaves the manager as it is. */
  lemma {:induction false} CommittedStateSyncsQuietly(m: Manager, st: GLState, bits: seq<DirtyBit>)
    requires CommittedView(m.snap) == st
    ensures SyncState(m, st, bits) == m
  {
    EqualValuesNeverDirty(m, st, bits);
  }

  /** A successful blend commit of the GL blend state settles it: no dirty
      bit re-raises the blend flag for that state. */
  lemma {:induction false} BlendCommitSettlesSync(m: Manager, cache: StateCache, framebuffer: FramebufferId,
                                                  st: GLState, sampleMask: Uint32, bits: seq<DirtyBit>)
    requires BlendPending(m, sampleMask)
    requires SetBlendState(m, cache, framebuffer, st.blend, st.blendColor, sampleMask).error == None
    ensures var s := SetBlendState(m, cache, framebuffer, st.blend, st.blendColor, sampleMask);
            Blend !in SyncState(s.mgr, st, bits).dirty
  {
    var s := SetBlendState(m, cache, framebuffer, st.blend, st.blendColor, sampleMask);
    forall i | 0 <= i < |bits|
      ensures Blend !in Raised(s.mgr.snap, st, bits[i])
    {
      RaisedMatchesTable(s.mgr.snap, st, bits[i]);
    }
  }

  /** A viewport commit of an in-range depth range settles it; the
      snapshot keeps the clamped values, so the range must be in [0, 1]. */
  lemma {:induction false} ViewportCommitSettlesSync(m: Manager, caps: Caps, st: GLState, bits: seq<DirtyBit>)
    requires Category.Viewport in m.dirty
    requires 0.0 <= st.nearPlane <= 1.0 && 0.0 <= st.farPlane <= 1.0
    ensures var s := SetViewport(m, caps, st.viewport, st.nearPlane, st.farPlane);
            Category.Viewport !in SyncState(s.mgr, st, bits).dirty
  {
    var s := SetViewport(m, caps, st.viewport, st.nearPlane, st.farPlane);
    forall i | 0 <= i < |bits|
      ensures Category.Viewport !in Raised(s.mgr.snap, st, bits[i])
    {
      RaisedMatchesTable(s.mgr.snap, st, bits[i]);
    }
  }

  /** An out-of-range depth range is committed clamped, so the next sync of
      the depth-range bit finds a difference and dirties the viewport
      again. */
  lemma {:induction false} OutOfRangeDepthRedirties(m: Manager, caps: Caps, st: GLState)
    requires Category.Viewport in m.dirty
    requires st.nearPlane < 0.0
    ensures var s := SetViewport(m, caps, st.viewport, st.nearPlane, st.farPlane);
            Category.Viewport in SyncState(s.mgr, st, [DepthRange]).dirty
  {
    var s := SetViewport(m, caps, st.viewport, st.nearPlane, st.farPlane);
    assert Raised(s.mgr.snap, st, [DepthRange][0]) == {Category.Viewport};
  }

  /** A freshly constructed manager never skips its first depth-stencil
      commit: it remembers no emulation booleans yet. */
  lemma {:induction false} FirstDepthStencilCommitRuns(featureLevel: nat, unsetStencilFunc: GLenum,
                                                       fb: FramebufferInfo)
    ensures !DepthStencilSkipped(Initial(featureLevel, unsetStencilFunc), fb)
  {
  }

  /** The GL defaults with blending switched on (source ONE, destination
      ZERO), an 800x600 viewport and depth range [0, 1]. */
  function BlendOnlyState(unsetStencilFunc: GLenum): GLState
  {
    GLState(DefaultBlendState.(blend := true), ColorF(0.0, 0.0, 0.0, 0.0),
            DefaultDepthStencilState(unsetStencilFunc), 0, 0, DefaultRasterizerState,
            Rectangle(0, 0, 0, 0), false, 0.0, 1.0, Rectangle(0, 0, 800, 600))
  }

  /** From a fresh manager, enabling blending dirties only the blend state,
      and committing it makes one blend call with the colour (0, 0, 0, 0);
      the rasterizer, scissor and viewport commits then make no call. */
  lemma {:induction false} EnableBlendScenario(featureLevel: nat, unsetStencilFunc: GLenum, cache: StateCache,
                                               caps: Caps, framebuffer: FramebufferId, h: Handle)
    requires cache.blend(BlendKey(framebuffer, BlendOnlyState(unsetStencilFunc).blend)) == Ok(h)
    ensures var st := BlendOnlyState(unsetStencilFunc);
            var m := SyncState(Initial(featureLevel, unsetStencilFunc), st, [BlendEnabled]);
            var s := SetBlendState(m, cache, framebuffer, st.blend, st.blendColor, 0);
            && m.dirty == {Blend}
            && s.calls == [OMSetBlendState(h, [0.0, 0.0, 0.0, 0.0], 0)]
            && s.mgr.dirty == {}
            && SetRasterizerState(s.mgr, cache, st.raster).calls == []
            && SetScissorRectangle(s.mgr, st.scissor, st.scissorTest).calls == []
            && SetViewport(s.mgr, caps, st.viewport, st.nearPlane, st.farPlane).calls == []
  {
    var st := BlendOnlyState(unsetStencilFunc);
    var m0 := Initial(featureLevel, unsetStencilFunc);
    assert Raised(m0.snap, st, [BlendEnabled][0]) == {Blend};
  }

  // ---------------------------------------------------------------------
  // Compatibility adjustments

  /** Swapping the winding twice gives back the original state. */
  lemma {:induction false} FlipFrontFaceIsInvolution(rs: RasterizerState)
    requires IsWinding(rs.frontFace)
    ensures FlipFrontFace(FlipFrontFace(rs)) == rs
  {
  }

  /** The Y flip is an involution for a fixed height. */
  lemma {:induction false} FlipYIsInvolution(height: int, y: int, extent: int)
    ensures FlipY(height, FlipY(height, y, extent), extent) == y
  {
  }

  predicate IsInt32(x: int)
  {
    -0x8000_0000 <= x < 0x8000_0000
  }

  /** The viewport arithmetic is done in C++ `int`; the model uses unbounded
      integers. With caps a D3D11 device can report, a 32-bit render target
      and a colour buffer within the viewport bound, every intermediate value
      (the negated caps, `max - corner`, and the flipped top) fits in `int`,
      so the two agree. */
  lemma ViewportArithmeticFitsInt(caps: Caps, reduced: bool, bounds: Extents, viewport: Rectangle, presentHeight: int)
    requires caps.maxViewportWidth <= D3D11_VIEWPORT_BOUNDS_MAX && caps.maxViewportHeight <= D3D11_VIEWPORT_BOUNDS_MAX
    requires 0 <= bounds.width <= D3D11_VIEWPORT_BOUNDS_MAX && 0 <= bounds.height <= D3D11_VIEWPORT_BOUNDS_MAX
    requires IsInt32(viewport.x) && IsInt32(viewport.y) && IsInt32(viewport.width) && IsInt32(viewport.height)
    requires 0 <= presentHeight <= D3D11_VIEWPORT_BOUNDS_MAX
    ensures var l := ViewportLimits(caps, reduced, bounds);
            var c := ClampViewport(l, viewport);
            && IsInt32(l.minX) && IsInt32(l.maxX) && IsInt32(l.minY) && IsInt32(l.maxY)
            && IsInt32(c.x) && IsInt32(c.y) && IsInt32(c.width) && IsInt32(c.height)
            && IsInt32(l.maxX - c.x) && IsInt32(l.maxY - c.y)
            && IsInt32(presentHeight - c.y) && IsInt32(FlipY(presentHeight, c.y, c.height))
  {
  }
}
