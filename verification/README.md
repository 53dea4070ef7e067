# StateManager11 render-state cache, modelled in Dafny

This project models `rx::StateManager11`, ANGLE's D3D11 fixed-function
render-state cache. The manager sits between the GL state and the D3D11
device context and keeps two things:

- a **committed snapshot**: the blend, depth-stencil and rasterizer
  descriptors, blend colour, sample mask, stencil references, scissor box and
  enable flag, viewport and depth range, the stencil buffer depth, the
  viewport bounds of feature level 9_3 targets, and the fast-present-path
  mode and height;
- **five coarse dirty flags**: blend, depth-stencil, rasterizer, scissor and
  viewport.

`syncState` turns fine-grained GL dirty bits into those flags. A flag is set
only when the GL value differs from the snapshot. The three notifications
`updateStencilSizeIfChanged`, `setViewportBounds` and `updatePresentPath`
set flags for mode changes. The five commit handlers each work as follows:

- return at once when there is nothing to do: the flag is clear and, for
  blend, the sample mask is unchanged, and, for depth-stencil, the
  emulation booleans are known and unchanged;
- adjust the value for D3D11: constant-alpha broadcast, emulated
  depth/stencil disabling, front-face flip, Y flip, clamping;
- for blend, depth-stencil and rasterizer, resolve a state object through
  the render-state cache, which may fail; scissor and viewport use no cache;
- make at most one device call (scissor only while the scissor test is
  enabled), record the snapshot and clear the flag.

The model is a functional state machine:

- `StateManager.Manager` is an immutable record: the snapshot, the set of
  dirty categories, the feature level and the view-scale constant.
- Every notification is a pure function from manager to manager.
- Every commit handler returns a `Step`. A `Step` holds the new manager, the
  device calls made (a list of `NativeCall` events) and the error returned.
- The render-state cache is a `StateCache`: three total functions from key
  to `Result<Handle>`. It is deterministic and can fail.

Modules, one per component:

| file | module | contents |
|---|---|---|
| wrappers.dfy | `Wrappers` | `Option`, `Result`, `Error` |
| gl_types.dfy | `GLTypes` | GL descriptors, rectangles, colours, dirty bits, `gl::clamp` |
| native_device.dfy | `NativeDevice` | cache keys, `StateCache`, device calls, caps |
| state_manager.dfy | `StateManager` | snapshot, manager, constructor defaults |
| dirty_tracker.dfy | `DirtyTracker` | `syncState` and the three notifications |
| compat.dfy | `Compat` | the D3D11 compatibility adjustments |
| commit.dfy | `Commit` | the five commit handlers |
| properties.dfy | `Properties` | lemmas relating several calls |

All source paths below are in `src/libANGLE/renderer/d3d/d3d11/StateManager11.cpp`.

Notes on the source's behaviour, each proved about the model:

- The first depth-stencil commit of a new manager always runs, even with
  the flag clear. `mCurDisableDepth` and `mCurDisableStencil` start invalid,
  and the skip test at lines 421-427 needs both to be valid
  (`Properties.FirstDepthStencilCommitRuns`).
- `setViewport` stores the clamped depth range in `mCurNear`/`mCurFar`
  (lines 569-570, 617-618). The depth-range case of `syncState` compares
  the unclamped GL values with them (lines 342-347). A GL depth range
  outside [0, 1] therefore dirties the viewport again on every depth-range
  notification (`Properties.OutOfRangeDepthRedirties`).
- The constructor assigns the boolean `true` to the front stencil read mask
  (line 58), which becomes the mask 1. The back mask is all ones (line 64).
  The model keeps these values as written.
- The stencil reference is clamped to 0xFF whatever the stencil buffer
  depth is (line 463). A negative reference becomes 0xFF because it is
  converted to `UINT` first. The stencil depth only feeds the assertions at
  lines 434-443.

## Model

| member | source | states |
|---|---|---|
| StateManager.Initial | src/libANGLE/renderer/d3d/d3d11/StateManager11.cpp:17-92 | a new manager has no dirty flag, remembers no depth/stencil emulation booleans, has the fast present path off and scissor disabled, and keeps the device's feature level |
| DirtyTracker.UpdateStencilSizeIfChanged | src/libANGLE/renderer/d3d/d3d11/StateManager11.cpp:94-102 | afterwards the given stencil size is recorded; the depth-stencil flag is set iff it was set, the attachment is new or the size changed; nothing else changes |
| DirtyTracker.SetViewportBounds | src/libANGLE/renderer/d3d/d3d11/StateManager11.cpp:104-112 | above feature level 9_3 nothing changes; at or below it the bounds are recorded and the viewport flag is set iff it was set or the bounds changed |
| DirtyTracker.UpdatePresentPath | src/libANGLE/renderer/d3d/d3d11/StateManager11.cpp:114-129 | afterwards the given mode is recorded (and, when active, the attachment's height, 0 without one); a change of mode or of height while active sets the viewport, scissor and rasterizer flags; otherwise nothing changes |
| DirtyTracker.RaisedMatchesTable | src/libANGLE/renderer/d3d/d3d11/StateManager11.cpp:138-357 | `Raised`, the model of the dirty-bit switch, raises flags iff one of the values the bit announces differs from the committed value, and then exactly the flags of the static bit-to-flag table |
| DirtyTracker.SyncState | src/libANGLE/renderer/d3d/d3d11/StateManager11.cpp:131-358 | only flags change, and a flag ends up set iff it was set or some processed bit owns it in the static table and announces a value that differs from the committed one |
| Properties.EqualValuesNeverDirty | src/libANGLE/renderer/d3d/d3d11/StateManager11.cpp:131-358 | bits whose announced values all equal the committed values leave the manager unchanged |
| Properties.ChangedValueDirtiesOwners | src/libANGLE/renderer/d3d/d3d11/StateManager11.cpp:131-358 | a bit whose announced values differ sets every flag the table gives it |
| Properties.UnhandledBitsChangeNothing | src/libANGLE/renderer/d3d/d3d11/StateManager11.cpp:354-355 | bits the switch does not handle leave the manager unchanged |
| Properties.ScissorToggleDirtiesRasterizer | src/libANGLE/renderer/d3d/d3d11/StateManager11.cpp:334-341 | toggling the scissor test sets both the scissor and the rasterizer flag |
| Properties.SyncDependsOnlyOnBitSet | src/libANGLE/renderer/d3d/d3d11/StateManager11.cpp:138-139 | the order and repetition of dirty bits do not affect the result |
| Properties.SyncIsIdempotent | src/libANGLE/renderer/d3d/d3d11/StateManager11.cpp:131-358 | syncing the same bits twice equals syncing them once |
| Properties.CommittedStateSyncsQuietly | src/libANGLE/renderer/d3d/d3d11/StateManager11.cpp:131-358 | when the snapshot holds exactly the GL state, no bit changes anything |
| Properties.UpdatePresentPathIsIdempotent | src/libANGLE/renderer/d3d/d3d11/StateManager11.cpp:120-128 | repeating the same present-path notification changes nothing |
| Properties.UpdateStencilSizeIsIdempotent | src/libANGLE/renderer/d3d/d3d11/StateManager11.cpp:97-101 | repeating the same stencil size for an initialised attachment changes nothing |
| Properties.SetViewportBoundsIsIdempotent | src/libANGLE/renderer/d3d/d3d11/StateManager11.cpp:106-111 | repeating the same viewport bounds changes nothing |
| Compat.BlendFactor | src/libANGLE/renderer/d3d/d3d11/StateManager11.cpp:379-396 | four components; all equal the alpha when an RGB factor is (one minus) constant alpha, otherwise (r, g, b, a) |
| Commit.SetBlendState | src/libANGLE/renderer/d3d/d3d11/StateManager11.cpp:360-407 | at most one call; no call and no change when the flag is clear and the sample mask unchanged; a cache error is returned as the cache gave it, with nothing changed; on success the one call carries the cached object, the blend factor and the mask, the snapshot records the inputs and only the blend flag is cleared |
| Properties.BlendCommitIsIdempotent | src/libANGLE/renderer/d3d/d3d11/StateManager11.cpp:365-406 | after a successful blend commit the same commit makes no call and changes nothing |
| Properties.FailedBlendCommitRetries | src/libANGLE/renderer/d3d/d3d11/StateManager11.cpp:370-375 | after a cache failure the handler is still pending and a retry repeats the same lookup |
| Properties.BlendCommitSettlesSync | src/libANGLE/renderer/d3d/d3d11/StateManager11.cpp:400-404 | after committing the GL blend state, no dirty bit re-raises the blend flag for that state |
| Compat.DepthStencilEmulation | src/libANGLE/renderer/d3d/d3d11/StateManager11.cpp:413-419 | depth is disabled iff the attachment has stencil but no depth, stencil iff depth but no stencil; never both |
| Compat.ToUnsigned | src/libANGLE/renderer/d3d/d3d11/StateManager11.cpp:463 | the `UINT` conversion agrees with the signed value modulo 2^32 and keeps non-negative values |
| Compat.ClampStencilRef | src/libANGLE/renderer/d3d/d3d11/StateManager11.cpp:455-463 | the emitted reference is at most 0xFF, equals an in-range reference, and is 0xFF for a reference above 0xFF or below 0 |
| Commit.SetDepthStencilState | src/libANGLE/renderer/d3d/d3d11/StateManager11.cpp:409-476 | skipped exactly when the flag is clear and both remembered emulation booleans are known and equal the current ones; a cache error is returned with nothing changed; on success one call with the clamped reference, and the snapshot records the state, both references and both booleans |
| Properties.DepthStencilCommitIsIdempotent | src/libANGLE/renderer/d3d/d3d11/StateManager11.cpp:421-427 | after a successful commit the same commit is skipped |
| Properties.AttachmentChangeForcesDepthStencil | src/libANGLE/renderer/d3d/d3d11/StateManager11.cpp:416-427 | switching between a depth-only and a stencil-only attachment makes the commit run even with a clear flag |
| Properties.FirstDepthStencilCommitRuns | src/libANGLE/renderer/d3d/d3d11/StateManager11.cpp:421-427 | a new manager never skips its first depth-stencil commit |
| Compat.MaxStencil | src/libANGLE/renderer/d3d/d3d11/StateManager11.cpp:434-438 | the mask is 0 unless the stencil test is on and the buffer has stencil bits; then exactly the bits below the stencil size are set |
| Compat.StencilTestOffOnlyRefsMustAgree | src/libANGLE/renderer/d3d/d3d11/StateManager11.cpp:434-443 | with the stencil test off the mask assertions always hold, so the front and back references alone must agree |
| Compat.EightBitStencilComparesLowByte | src/libANGLE/renderer/d3d/d3d11/StateManager11.cpp:434-443 | with the test on and an 8-bit stencil buffer, the assertions require equal references and front/back read and write masks that agree in their low byte |
| Compat.FlipFrontFace | src/libANGLE/renderer/d3d/d3d11/StateManager11.cpp:492-503 | the winding becomes the other of CW and CCW; every other field is kept |
| Properties.FlipFrontFaceIsInvolution | src/libANGLE/renderer/d3d/d3d11/StateManager11.cpp:495-503 | flipping the winding twice gives back the state |
| Commit.CacheRasterState | src/libANGLE/renderer/d3d/d3d11/StateManager11.cpp:488-511 | with the fast present path the cache gets the state with the other winding, whose flip is the GL state; without it, the GL state |
| Commit.SetRasterizerState | src/libANGLE/renderer/d3d/d3d11/StateManager11.cpp:478-524 | no call when the flag is clear; the cache key is the adjusted state with the committed scissor flag; on failure the cache's error is returned with nothing changed; on success one call, the snapshot records the unflipped state and only the rasterizer flag is cleared |
| Properties.RasterizerCommitIsIdempotent | src/libANGLE/renderer/d3d/d3d11/StateManager11.cpp:480-483 | after a successful commit the same commit makes no call |
| Compat.FlipY | src/libANGLE/renderer/d3d/d3d11/StateManager11.cpp:534 | a span inside a surface of the given height is mapped to a span inside it, whose far edge is the height minus the original origin |
| Properties.FlipYIsInvolution | src/libANGLE/renderer/d3d/d3d11/StateManager11.cpp:534 | flipping a vertical origin twice with the same height gives it back |
| Compat.ScissorRect | src/libANGLE/renderer/d3d/d3d11/StateManager11.cpp:531-543 | left is max(0, x) and top is max(0, y') for the origin y' (flipped on the fast present path); right is x plus the non-negative width, bottom y' plus the non-negative height; a box already inside the surface keeps its corner and extent, and with the fast present path its bottom edge is the height minus y |
| Commit.SetScissorRectangle | src/libANGLE/renderer/d3d/d3d11/StateManager11.cpp:526-551 | never fails; no change when the flag is clear; otherwise a call is made iff the scissor is enabled, and the snapshot and flag are updated either way |
| Properties.ScissorCommitIsIdempotent | src/libANGLE/renderer/d3d/d3d11/StateManager11.cpp:528-550 | a second scissor commit makes no call |
| GLTypes.Clamp | src/libANGLE/renderer/d3d/d3d11/StateManager11.cpp:586-589 | with lo <= hi the result lies in [lo, hi], keeps an in-range value and maps values below or above to the nearer bound |
| GLTypes.Clamp01 | src/libANGLE/renderer/d3d/d3d11/StateManager11.cpp:569-570 | the result lies in [0, 1], keeps an in-range value and maps values below or above to 0 or 1 |
| Compat.ToSigned | src/libANGLE/renderer/d3d/d3d11/StateManager11.cpp:572-573 | the `int` cast of a cap agrees with it modulo 2^32 and keeps values below 2^31 |
| Compat.ViewportLimits | src/libANGLE/renderer/d3d/d3d11/StateManager11.cpp:572-584 | the corner range is [-max, max] from the caps, or [0, render-target size] at feature level 9_3 and below |
| Compat.ClampViewport | src/libANGLE/renderer/d3d/d3d11/StateManager11.cpp:586-589 | for well-formed limits, per axis: an in-range corner is kept, a low one becomes the minimum and a high one the maximum; the extent is kept when it fits in [0, max - corner], becomes 0 when negative and max - corner when larger; so the result fits, never grows, and a fitting viewport is kept |
| Properties.ViewportArithmeticFitsInt | src/libANGLE/renderer/d3d/d3d11/StateManager11.cpp:571-602 | with caps and render-target and colour-buffer sizes within the D3D11 viewport bound (32767) and 32-bit GL coordinates, the negated caps, every clamped value, each max - corner and the flipped top fit in a 32-bit `int`, so the unbounded arithmetic agrees with the source's |
| Commit.NativeViewport | src/libANGLE/renderer/d3d/d3d11/StateManager11.cpp:569-612 | each depth is clamped to [0, 1]: an in-range value is kept, a negative one becomes 0.0 and one above 1 becomes 1.0; the rectangle is the clamped one; with the fast present path, flipping its origin back gives the clamped GL origin; without it, a viewport inside the limits is sent unchanged |
| Commit.ViewScaleY | src/libANGLE/renderer/d3d/d3d11/StateManager11.cpp:657-658 | the Y view scale is +1 exactly on the fast present path and -1 otherwise |
| Commit.SetViewport | src/libANGLE/renderer/d3d/d3d11/StateManager11.cpp:553-668 | never fails; no change when the flag is clear; otherwise one call with the native viewport, the snapshot records the requested rectangle and the sent depths, which are the clamped ones (so zNear = -0.5, zFar = 1.5 are stored as 0.0 and 1.0), the view scale is set and only the viewport flag is cleared |
| Properties.ViewportCommitIsIdempotent | src/libANGLE/renderer/d3d/d3d11/StateManager11.cpp:558-559 | a second viewport commit makes no call |
| Properties.ViewportCommitSettlesSync | src/libANGLE/renderer/d3d/d3d11/StateManager11.cpp:616-618 | after committing an in-range depth range and a viewport, no dirty bit re-raises the viewport flag |
| Properties.OutOfRangeDepthRedirties | src/libANGLE/renderer/d3d/d3d11/StateManager11.cpp:342-347 | after committing a negative near plane, the depth-range bit dirties the viewport again |
| Properties.EnableBlendScenario | src/libANGLE/renderer/d3d/d3d11/StateManager11.cpp:40-52 | from a new manager, enabling blending dirties only blend; its commit makes one call with colour (0, 0, 0, 0); the rasterizer, scissor and viewport commits then make no call |

## Left out

- `initialize` stores the device context, cache and caps pointers. The model passes the cache to the handlers that need it (blend, depth-stencil, rasterizer) and keeps only the feature level of the device caps. `Commit.SetViewport` takes `Caps` as the source's `setViewport` takes its `gl::Caps` parameter.
- The device-context calls (`OMSetBlendState`, `OMSetDepthStencilState`, `RSSetState`, `RSSetScissorRects`, `RSSetViewports`) are recorded as `NativeCall` events and not executed.
- `RenderStateCache` internals are not part of this model. The cache is a deterministic function that may fail. That equal keys give equal handles follows from it being a function, so no separate property is stated.
- The `ANGLE_ENABLE_WINDOWS_HOLOGRAPHIC` block (lines 561-567), which overwrites the present height with the viewport height, is a platform-specific patch and is left out.
- The shader constants `viewAdjust`, `viewCoords`, `depthFront` and `depthRange` (lines 620-655) are float arithmetic and are left out. Only the sign of `viewScale[1]` is kept.
- Floats are modelled as reals and compared by exact equality. NaN is not modelled, so a NaN blend colour (which C++ never finds equal to itself) is not covered.
- The `BitSetIterator` order: dirty bits are a sequence in any order, and `Properties.SyncDependsOnlyOnBitSet` shows the order does not matter.
- The `ASSERT`s become preconditions. They are the front/back stencil agreement in `setDepthStencilState` and the CW/CCW winding in `setRasterizerState`.
- `gl::clamp` and `gl::clamp01` (common/mathutil.h) are not part of this model. They are taken as "below or equal to the minimum gives the minimum, above the maximum gives the maximum". Every stated property assumes lo <= hi, and there all usual definitions agree.
- The constructor leaves `mCurDepthStencilState.stencilFunc` unset, so `Initial` takes its value as a parameter. Before the first viewport commit the view scale is unset (`None`).
- Commit.SetScissorRectangle: rectangle arithmetic uses unbounded integers; 32-bit overflow of `x + width` and of the Y flip is not modelled.
- Compat.ClampViewport: the limits, `max - corner` (StateManager11.cpp:574-575, 588-589) and the fast-path top (601-602) are computed in unbounded integers; the source's 32-bit `int` arithmetic overflows (undefined behaviour in C++) only for caps or coordinates near 2^31, e.g. `maxViewportWidth = 0x7FFFFFFF` with `x = -0x7FFFFFFF`, where the model keeps the width the source would wrap. Properties.ViewportArithmeticFitsInt states the range in which the two agree.
- Commit.NativeViewport: the clamped corner and extent are kept as integers. Their conversion to float is exact for render-target sizes and is not modelled.
- The depth-stencil `maxStencil` shift is modelled only for stencil sizes below 32 bits. Larger shifts are undefined in C++ and are excluded by the precondition.
- The framebuffer passed to `setBlendState` is an opaque identifier inside the cache key. The render-target formats the cache reads from it are not modelled.
