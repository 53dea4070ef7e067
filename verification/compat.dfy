/** The compatibility adjustments the commit handlers make before talking
    to the device: constant-alpha broadcast of the blend colour,
    depth/stencil disabling for emulated single-aspect attachments, the
    stencil-reference clamp, front-face and Y-axis flips for the fast
    present path, and viewport clamping. */
module Compat {
  import opened GLTypes
  import opened NativeDevice

  /** The RGB blend factors read the constant colour's alpha channel. */
  predicate UsesConstantAlpha(bs: BlendState)
  {
    bs.sourceBlendRGB in {GL_CONSTANT_ALPHA, GL_ONE_MINUS_CONSTANT_ALPHA}
    || bs.destBlendRGB in {GL_CONSTANT_ALPHA, GL_ONE_MINUS_CONSTANT_ALPHA}
  }

  /** The four blend-factor floats handed to `OMSetBlendState`: the colour
      as (r, g, b, a), or its alpha in every component when the RGB factors
      use the constant alpha (D3D11 has no separate constant alpha). */
  function BlendFactor(bs: BlendState, color: ColorF): (r: seq<real>)
    ensures |r| == 4
    ensures r[3] == color.alpha
    ensures UsesConstantAlpha(bs) ==> forall i :: 0 <= i < 4 ==> r[i] == color.alpha
    ensures !UsesConstantAlpha(bs) ==> r == [color.red, color.green, color.blue, color.alpha]
  {
    if bs.sourceBlendRGB != GL_CONSTANT_ALPHA
       && bs.sourceBlendRGB != GL_ONE_MINUS_CONSTANT_ALPHA
       && bs.destBlendRGB != GL_CONSTANT_ALPHA
       && bs.destBlendRGB != GL_ONE_MINUS_CONSTANT_ALPHA
    then [color.red, color.green, color.blue, color.alpha]
    else [color.alpha, color.alpha, color.alpha, color.alpha]
  }

  /** Which half of a combined depth-stencil format must be switched off:
      a stencil-only attachment is backed by D24S8, so its depth half is
      disabled, and a depth-only one gets its stencil half disabled. */
  datatype Emulation = Emulation(disableDepth: bool, disableStencil: bool)

  function DepthStencilEmulation(fb: FramebufferInfo): (e: Emulation)
    ensures !(e.disableDepth && e.disableStencil)
    ensures e.disableDepth <==> fb.hasStencil && !fb.hasDepth
    ensures e.disableStencil <==> fb.hasDepth && !fb.hasStencil
    ensures fb.hasDepth == fb.hasStencil ==> e == Emulation(false, false)
  {
    Emulation(!fb.hasDepth && fb.hasStencil, fb.hasDepth && !fb.hasStencil)
  }

  /** The conversion of a signed `int` to `UINT` (two's complement). */
  function ToUnsigned(x: Int32): (r: Uint32)
    ensures r % 0x1_0000_0000 == x % 0x1_0000_0000
    ensures 0 <= x ==> r == x
  {
    if x < 0 then x + 0x1_0000_0000 else x
  }

  /** The largest D3D11 stencil reference, `D3D11_DEFAULT_STENCIL_READ_MASK`. */
  const MAX_STENCIL_REF: Uint32 := 0xFF

  /** `std::min<UINT>(stencilRef, 0xFF)`: in-range references pass through,
      larger ones clamp to 0xFF, and a negative one, converted to a huge
      unsigned value first, also becomes 0xFF. The clamp is the same for
      every stencil buffer depth. */
  function ClampStencilRef(ref: Int32): (r: Uint32)
    ensures r <= MAX_STENCIL_REF
    ensures 0 <= ref <= MAX_STENCIL_REF ==> r == ref
    ensures ref < 0 || MAX_STENCIL_REF < ref ==> r == MAX_STENCIL_REF
  {
    var u := ToUnsigned(ref);
    if MAX_STENCIL_REF < u then MAX_STENCIL_REF else u
  }

  /** Bit `k` of a mask is set. */
  predicate BitSet(mask: GLMask, k: nat)
    requires k < 32
  {
    mask & ((1 as GLMask) << k) != 0
  }

  /** `(1 << stencilSize) - 1` when the stencil test is on and the buffer
      has stencil bits, 0 otherwise; the shift is defined below 32 bits. */
  function MaxStencil(stencilTest: bool, stencilSize: Uint32): (r: GLMask)
    requires stencilTest && stencilSize > 0 ==> stencilSize < 32
    ensures !(stencilTest && stencilSize > 0) ==> r == 0
    ensures stencilTest && stencilSize > 0 ==>
              forall k: nat :: k < 32 ==> (BitSet(r, k) <==> k < stencilSize as nat)
  {
    if stencilTest && stencilSize > 0 then ((1 as GLMask) << stencilSize) - 1 else 0
  }

  /** The assertions `setDepthStencilState` makes before building the state
      object: D3D11 has one stencil reference and one read/write mask, so
      front and back must agree within the stencil buffer's bits. */
  predicate StencilFacesAgree(ds: DepthStencilState, stencilRef: Int32, stencilBackRef: Int32,
                              stencilSize: Uint32)
  {
    && (ds.stencilTest && stencilSize > 0 ==> stencilSize < 32)
    && var maxStencil := MaxStencil(ds.stencilTest, stencilSize);
    && ds.stencilWritemask & maxStencil == ds.stencilBackWritemask & maxStencil
    && stencilRef == stencilBackRef
    && ds.stencilMask & maxStencil == ds.stencilBackMask & maxStencil
  }

  /** With the stencil test off the masks are compared under an empty
      mask, so only the two references have to agree. */
  lemma {:induction false} StencilTestOffOnlyRefsMustAgree(ds: DepthStencilState, stencilRef: Int32,
                                                          stencilBackRef: Int32, stencilSize: Uint32)
    requires !ds.stencilTest
    ensures StencilFacesAgree(ds, stencilRef, stencilBackRef, stencilSize) <==> stencilRef == stencilBackRef
  {
  }

  /** With an 8-bit stencil buffer and the test on, front and back masks
      must agree in their low byte only. */
  lemma {:induction false} EightBitStencilComparesLowByte(ds: DepthStencilState, stencilRef: Int32,
                                                         stencilBackRef: Int32)
    requires ds.stencilTest
    ensures StencilFacesAgree(ds, stencilRef, stencilBackRef, 8) <==>
              && stencilRef == stencilBackRef
              && ds.stencilWritemask & 0xFF == ds.stencilBackWritemask & 0xFF
              && ds.stencilMask & 0xFF == ds.stencilBackMask & 0xFF
  {
  }

  /** A winding order the rasterizer flip accepts. */
  predicate IsWinding(frontFace: GLenum)
  {
    frontFace == GL_CW || frontFace == GL_CCW
  }

  /** The rasterizer state with clockwise and counter-clockwise swapped,
      compensating for the Y flip of the fast present path. */
  function FlipFrontFace(rs: RasterizerState): (r: RasterizerState)
    requires IsWinding(rs.frontFace)
    ensures IsWinding(r.frontFace) && r.frontFace != rs.frontFace
    ensures r == rs.(frontFace := r.frontFace)
  {
    if rs.frontFace == GL_CCW then rs.(frontFace := GL_CW) else rs.(frontFace := GL_CCW)
  }

  /** The vertical origin of a span `[y, y + extent)` in a surface of the
      given height, measured from the other edge. */
  function FlipY(height: int, y: int, extent: int): (r: int)
    ensures 0 <= y && 0 <= extent && y + extent <= height ==> 0 <= r && r + extent <= height
    ensures 0 <= y && 0 <= extent && y + extent <= height ==> r + extent == height - y
  {
    height - extent - y
  }

  function Max0(x: int): (r: int)
    ensures r >= 0 && r >= x && (r == 0 || r == x)
  {
    if 0 < x then x else 0
  }

  /** The `D3D11_RECT` for a scissor box: the vertical origin flipped on
      the fast present path, left and top clamped to 0, and right and bottom
      one (clamped non-negative) extent away from the unclamped origin. */
  function ScissorRect(scissor: Rectangle, presentFast: bool, presentHeight: int): (r: D3DRect)
    ensures r.left >= 0 && r.top >= 0
    ensures r.left == Max0(scissor.x)
    ensures !presentFast ==> r.top == Max0(scissor.y)
    ensures presentFast ==> r.top == Max0(FlipY(presentHeight, scissor.y, scissor.height))
    ensures r.right == scissor.x + Max0(scissor.width)
    ensures !presentFast ==> r.bottom == scissor.y + Max0(scissor.height)
    ensures presentFast ==> r.bottom == FlipY(presentHeight, scissor.y, scissor.height) + Max0(scissor.height)
    ensures scissor.x >= 0 && scissor.width >= 0 ==>
              r.left == scissor.x && r.right - r.left == scissor.width
    ensures !presentFast && scissor.y >= 0 && scissor.height >= 0 ==>
              r.top == scissor.y && r.bottom - r.top == scissor.height
    ensures presentFast && scissor.height >= 0 && scissor.y + scissor.height <= presentHeight ==>
              r.bottom == presentHeight - scissor.y && r.bottom - r.top == scissor.height
  {
    var y := if presentFast then FlipY(presentHeight, scissor.y, scissor.height) else scissor.y;
    D3DRect(Max0(scissor.x), Max0(y), scissor.x + Max0(scissor.width), y + Max0(scissor.height))
  }

  /** The range the viewport's top-left corner is clamped into. */
  datatype Limits = Limits(minX: int, maxX: int, minY: int, maxY: int)

  /** `static_cast<int>` of an `unsigned int` (two's complement wrap). */
  function ToSigned(x: Uint32): (r: Int32)
    ensures r % 0x1_0000_0000 == x % 0x1_0000_0000
    ensures x < 0x8000_0000 ==> r == x
  {
    if x < 0x8000_0000 then x else x - 0x1_0000_0000
  }

  /** The native viewport range is `[-max, max]` from the caps; at feature
      level 9_3 and below it is `[0, size]` of the render target. */
  function ViewportLimits(caps: Caps, reducedFeatureLevel: bool, bounds: Extents): (l: Limits)
    ensures !reducedFeatureLevel && caps.maxViewportWidth < 0x8000_0000 ==>
              l.minX == -(caps.maxViewportWidth as int) && l.maxX == caps.maxViewportWidth
    ensures !reducedFeatureLevel && caps.maxViewportHeight < 0x8000_0000 ==>
              l.minY == -(caps.maxViewportHeight as int) && l.maxY == caps.maxViewportHeight
    ensures reducedFeatureLevel ==> l == Limits(0, bounds.width, 0, bounds.height)
  {
    if reducedFeatureLevel then Limits(0, bounds.width, 0, bounds.height)
    else
      var maxX: int := ToSigned(caps.maxViewportWidth);
      var maxY: int := ToSigned(caps.maxViewportHeight);
      Limits(-maxX, maxX, -maxY, maxY)
  }

  predicate WellFormedLimits(l: Limits)
  {
    l.minX <= l.maxX && l.minY <= l.maxY
  }

  /** The requested viewport lies inside the limits already. */
  predicate FitsLimits(l: Limits, v: Rectangle)
  {
    l.minX <= v.x && 0 <= v.width && v.x + v.width <= l.maxX
    && l.minY <= v.y && 0 <= v.height && v.y + v.height <= l.maxY
  }

  /** The top-left corner clamped into the limits, then the extent clamped
      so that the viewport ends inside them. */
  function ClampViewport(l: Limits, v: Rectangle): (r: Rectangle)
    ensures WellFormedLimits(l) ==> FitsLimits(l, r)
    ensures WellFormedLimits(l) ==> r.width <= Max0(v.width) && r.height <= Max0(v.height)
    ensures FitsLimits(l, v) ==> r == v
    ensures WellFormedLimits(l) ==>
              && (l.minX <= v.x <= l.maxX ==> r.x == v.x)
              && (v.x < l.minX ==> r.x == l.minX)
              && (l.maxX < v.x ==> r.x == l.maxX)
              && (0 <= v.width <= l.maxX - r.x ==> r.width == v.width)
              && (v.width < 0 ==> r.width == 0)
              && (l.maxX - r.x < v.width ==> r.width == l.maxX - r.x)
    ensures WellFormedLimits(l) ==>
              && (l.minY <= v.y <= l.maxY ==> r.y == v.y)
              && (v.y < l.minY ==> r.y == l.minY)
              && (l.maxY < v.y ==> r.y == l.maxY)
              && (0 <= v.height <= l.maxY - r.y ==> r.height == v.height)
              && (v.height < 0 ==> r.height == 0)
              && (l.maxY - r.y < v.height ==> r.height == l.maxY - r.y)
  {
    var x := Clamp(v.x, l.minX, l.maxX);
    var y := Clamp(v.y, l.minY, l.maxY);
    Rectangle(x, y, Clamp(v.width, 0, l.maxX - x), Clamp(v.height, 0, l.maxY - y))
  }
}
