/** Blit commands, how the regionizer fills them in, and what the blitter does with them. */
module Blits {
  import opened Geometry
  import opened Pixels
  import opened Rotation
  import opened Layers

  datatype ScaleMode = Unset | Bilinear | Taps9x9

  /** A source: a buffer seen after turning it clockwise by `orientation`, and the part to read. */
  datatype Surface = Surface(handle: Handle, orientation: Angle, width: int, height: int,
                             rect: Rect, flipH: bool, flipV: bool)

  datatype Source1 = Fill | Image1(surface: Surface)

  /** `Target`: the second source is the destination itself. */
  datatype Source2 = Unused | Target(rect: Rect) | Image2(surface: Surface)

  datatype Batch = Single | Begin | Continue | End

  /** The fields a batched command declares as changed; origin and size always go together. */
  datatype Change = Op | Src1 | Src1Rect | Src2 | Src2Rect | Dst | DstRect | ClipRect | Scale

  datatype Entry = Entry(
    blend: bool, src1: Source1, src2: Source2,
    dstOrientation: Angle, dstRect: Rect, clip: Rect, scale: ScaleMode,
    async: bool, batch: Batch, changes: set<Change>)

  // ----- What the blitter computes -----

  /** A read through the scaler; everything the result may depend on. */
  datatype ScaledRead = ScaledRead(surface: Surface, dstOrientation: Angle, dstRect: Rect,
                                   scale: ScaleMode, x: int, y: int)

  /** The contents of all buffers: exact reads, and reads through the scaler. */
  datatype Textures = Textures(fetch: (Handle, int, int) -> Pixel, scaled: ScaledRead -> Pixel)

  /** Buffers in a format without alpha read as opaque. */
  ghost predicate OpaqueFormats(tx: Textures) {
    && (forall h: Handle, x: int, y: int :: h.Native? && IsOpaque(h.format) ==> tx.fetch(h, x, y).a == 1.0)
    && (forall r: ScaledRead :: r.surface.handle.Native? && IsOpaque(r.surface.handle.format)
                                ==> tx.scaled(r).a == 1.0)
  }

  /** What is read for one pixel: a pixel of a buffer, or what the scaler makes of a request. */
  datatype Read = Exact(handle: Handle, x: int, y: int) | Through(request: ScaledRead) {
    function Buffer(): Handle { if Exact? then handle else request.surface.handle }
  }

  function Fetch(tx: Textures, r: Read): Pixel {
    match r
    case Exact(handle, x, y) => tx.fetch(handle, x, y)
    case Through(request) => tx.scaled(request)
  }

  /** The buffer pixel behind pixel (u, v) of the turned view of a surface. */
  function TurnedRead(s: Surface, u: int, v: int): Read {
    var (su, sv) := Turn(s.width, s.height, ToQuarter(360 - s.orientation), u, v);
    Exact(s.handle, su, sv)
  }

  /** What a source contributes to screen pixel (x, y), which command `e` sees as (u, v). */
  function ReadOf(s: Surface, e: Entry, u: int, v: int, x: int, y: int): Read {
    if s.rect.Width() != e.dstRect.Width() || s.rect.Height() != e.dstRect.Height() then
      Through(ScaledRead(s, e.dstOrientation, e.dstRect, e.scale, x, y))
    else
      var du := u - e.dstRect.left;
      var dv := v - e.dstRect.top;
      TurnedRead(s,
                 s.rect.left + if s.flipH then s.rect.Width() - 1 - du else du,
                 s.rect.top + if s.flipV then s.rect.Height() - 1 - dv else dv)
  }

  /** The effect of one command on screen pixel (x, y), whose value was `p`. */
  function Step(tx: Textures, w: int, h: int, e: Entry, x: int, y: int, p: Pixel): Pixel {
    var (u, v) := Turn(w, h, ToQuarter(e.dstOrientation), x, y);
    if !Contains(e.clip, u, v) || !Contains(e.dstRect, u, v) then p
    else
      var s1 := if e.src1.Fill? then CLEAR else Fetch(tx, ReadOf(e.src1.surface, e, u, v, x, y));
      if !e.blend then s1
      else match e.src2
        case Image2(s) => Over(s1, Fetch(tx, ReadOf(s, e, u, v, x, y)))
        case _ => Over(s1, p)
  }

  /** The effect of a command list on one screen pixel. */
  function Exec(tx: Textures, w: int, h: int, es: seq<Entry>, x: int, y: int, p: Pixel): Pixel {
    if es == [] then p
    else Step(tx, w, h, es[|es| - 1], x, y, Exec(tx, w, h, es[..|es| - 1], x, y, p))
  }

  lemma {:induction false} ExecConcat(tx: Textures, w: int, h: int, a: seq<Entry>, b: seq<Entry>,
                                      x: int, y: int, p: Pixel)
    ensures Exec(tx, w, h, a + b, x, y, p) == Exec(tx, w, h, b, x, y, Exec(tx, w, h, a, x, y, p))
    decreases |b|
  {
    if b == [] {
      assert a + b == a;
    } else {
      assert (a + b)[..|a + b| - 1] == a + b[..|b| - 1];
      ExecConcat(tx, w, h, a, b[..|b| - 1], x, y, p);
    }
  }

  // ----- How the regionizer fills commands in -----

  /** `rgz_get_src_rect`: the part of the buffer that belongs under `region`. */
  function SrcRect(l: Layer, region: Rect): Rect {
    if Scaled(l) then l.crop
    else
      var r := RotatedView(l.frame, region, -Orientation(l.transform));
      Rect(r.left + l.crop.left, r.top + l.crop.top, r.right + l.crop.left, r.bottom + l.crop.top)
  }

  /** `rgz_set_src_data`, `rgz_rotate_src` and `rgz_get_flip_flags`. */
  function SourceSurface(l: Layer, region: Rect, orientation: Angle): Surface
    requires l.handle.Native?
  {
    var (w, h) := (l.handle.width, l.handle.height);
    var flipH := l.transform.flipH && !l.transform.flipV;
    var flipV := l.transform.flipV && !l.transform.flipH;
    if orientation == 0 then Surface(l.handle, 0, w, h, SrcRect(l, region), flipH, flipV)
    else
      var turned := RotatedView(Screen(w, h), SrcRect(l, region), orientation);
      if orientation % 180 != 0 then Surface(l.handle, orientation, h, w, turned, flipH, flipV)
      else Surface(l.handle, orientation, w, h, turned, flipH, flipV)
  }

  /** NV12 buffers stay at 0 degrees and the destination is turned the other way instead. */
  function SrcAngle(l: Layer): Angle
    requires l.handle.Native?
  {
    if IsNV12(l.handle.format) then 0 else Orientation(l.transform)
  }

  function DstAngle(l: Layer): Angle
    requires l.handle.Native?
  {
    if IsNV12(l.handle.format) then 360 - Orientation(l.transform) else 0
  }

  /** `rgz_set_dst_data` and `rgz_rotate_dst`. */
  function DstView(w: int, h: int, r: Rect, orientation: Angle): Rect {
    if orientation == 0 then r else RotatedView(Screen(w, h), r, orientation)
  }

  /** The rectangle the command writes before clipping: scaled layers always use their whole frame. */
  function DrawRect(l: Layer, region: Rect): Rect {
    if Scaled(l) then l.frame else region
  }

  /** `rgz_cfg_scale_mode`, which only scaled layers reach. */
  function ScaleOf(l: Layer): ScaleMode
    requires l.handle.Native?
  {
    if !Scaled(l) then Unset else if IsNV12(l.handle.format) then Taps9x9 else Bilinear
  }

  /** `rgz_hwc_subregion_copy`: `l` replaces what is in `region`. */
  function CopyEntry(w: int, h: int, region: Rect, l: Layer): Entry
    requires l.handle.Native?
  {
    var r := DrawRect(l, region);
    Entry(false, Image1(SourceSurface(l, r, SrcAngle(l))), Unused, DstAngle(l),
          DstView(w, h, r, DstAngle(l)), DstView(w, h, ClipTo(w, h, region), DstAngle(l)),
          ScaleOf(l), true, Single, {})
  }

  /** `rgz_hwc_subregion_blend` without a second layer: `l` is blended onto the framebuffer. */
  function BlendEntry(w: int, h: int, region: Rect, l: Layer): Entry
    requires l.handle.Native?
  {
    var e := CopyEntry(w, h, region, l);
    e.(blend := true, src2 := Target(e.dstRect))
  }

  /** `rgz_hwc_subregion_blend` with a second layer: `top` over `below` replaces the framebuffer. */
  function BlendPairEntry(w: int, h: int, region: Rect, top: Layer, below: Layer): Entry
    requires top.handle.Native? && below.handle.Native?
  {
    var e := CopyEntry(w, h, region, top);
    e.(blend := true, src2 := Image2(SourceSurface(below, region, Orientation(below.transform))))
  }

  /** `rgz_out_clrdst`. */
  function ClearEntry(w: int, h: int, region: Rect): Entry {
    Entry(false, Fill, Unused, 0, region, ClipTo(w, h, region), Unset, true, Single, {})
  }

  // ----- What a layer shows, independently of any command -----

  /** The read a blit of the whole frame makes; the meaning of a scaled layer. */
  function WholeRead(w: int, h: int, l: Layer, x: int, y: int): ScaledRead
    requires l.handle.Native?
  {
    ScaledRead(SourceSurface(l, l.frame, SrcAngle(l)), DstAngle(l),
               DstView(w, h, l.frame, DstAngle(l)), ScaleOf(l), x, y)
  }

  /** The buffer coordinates an unscaled layer shows at screen pixel (x, y). */
  function SourcePoint(l: Layer, x: int, y: int): (int, int) {
    var (rx, ry) := Turn(l.frame.Width(), l.frame.Height(), ToQuarter(-Orientation(l.transform)),
                         x - l.frame.left, y - l.frame.top);
    (l.crop.left + (if l.transform.flipH && !l.transform.flipV then l.crop.Width() - 1 - rx else rx),
     l.crop.top + (if l.transform.flipV && !l.transform.flipH then l.crop.Height() - 1 - ry else ry))
  }

  /** What layer `l` shows at screen position (x, y). */
  function LayerRead(w: int, h: int, l: Layer, x: int, y: int): Read
    requires l.handle.Native?
  {
    if Scaled(l) then Through(WholeRead(w, h, l, x, y))
    else var (sx, sy) := SourcePoint(l, x, y); Exact(l.handle, sx, sy)
  }

  /** What the command that draws `l` into `region` reads for screen position (x, y). */
  function PieceRead(w: int, h: int, l: Layer, region: Rect, x: int, y: int): Read
    requires l.handle.Native?
  {
    var e := CopyEntry(w, h, region, l);
    var (u, v) := Turn(w, h, ToQuarter(e.dstOrientation), x, y);
    ReadOf(e.src1.surface, e, u, v, x, y)
  }

  /** Both read the layer's own buffer. */
  lemma ReadsOwnBuffer(w: int, h: int, l: Layer, region: Rect, x: int, y: int)
    requires l.handle.Native?
    ensures LayerRead(w, h, l, x, y).Buffer() == PieceRead(w, h, l, region, x, y).Buffer() == l.handle
  {
  }

  // ----- Which way a layer is turned -----

  /**
    Where a transform puts pixel (u, v) of a `w` by `h` picture: the flips come first, and then the
    quarter turn clockwise.
   */
  function Displayed(t: Transform, w: int, h: int, u: int, v: int): (int, int) {
    var (fu, fv) := (if t.flipH then w - 1 - u else u, if t.flipV then h - 1 - v else v);
    if t.rot90 then (h - 1 - fv, fu) else (fu, fv)
  }

  /** Every pixel of the frame shows the pixel of the crop that the transform puts there. */
  lemma SourcePointDisplayed(l: Layer, x: int, y: int)
    requires !Scaled(l)
    ensures var (sx, sy) := SourcePoint(l, x, y);
            Displayed(l.transform, l.crop.Width(), l.crop.Height(), sx - l.crop.left, sy - l.crop.top)
            == (x - l.frame.left, y - l.frame.top)
  {
    OrientationAngles(l);
  }

  /** A corner pixel of a rectangle. */
  datatype Corner = Corner(right: bool, bottom: bool) {
    function Of(r: Rect): (int, int) {
      (if right then r.right - 1 else r.left, if bottom then r.bottom - 1 else r.top)
    }

    /** Where the corner is after turning clockwise. */
    function Turned(n: Quarter): Corner {
      match n
      case 0 => this
      case 90 => Corner(!bottom, right)
      case 180 => Corner(!right, !bottom)
      case _ => Corner(bottom, !right)
    }

    function Flipped(flipH: bool, flipV: bool): Corner { Corner(right != flipH, bottom != flipV) }
  }

  /**
    What stretching the source rectangle of the request over its destination makes of a corner of the
    frame, of which the blitter sees corner `c`.
   */
  function StretchedCorner(r: ScaledRead, c: Corner): Read {
    var (u, v) := c.Turned(ToQuarter(r.dstOrientation)).Flipped(r.surface.flipH, r.surface.flipV).Of(r.surface.rect);
    TurnedRead(r.surface, u, v)
  }

  /** The corners of a view are the turned corners of what it views. */
  lemma CornerTurned(w: int, h: int, r: Rect, n: Quarter, c: Corner)
    ensures c.Turned(n).Of(QuarterView(Screen(w, h), r, n)) == Turn(w, h, n, c.Of(r).0, c.Of(r).1)
  {
  }

  /** A whole layer is read from its crop. */
  lemma WholeSource(l: Layer)
    ensures SrcRect(l, l.frame) == l.crop
  {
    OrientationAngles(l);
  }

  /** A corner of the turned source is the corner of the crop, turned back. */
  lemma SourceCorner(l: Layer, c: Corner)
    requires l.handle.Native?
    ensures var s := SourceSurface(l, l.frame, SrcAngle(l));
            var (u, v) := c.Of(s.rect);
            var (cx, cy) := c.Turned(Opposite(ToQuarter(SrcAngle(l)))).Of(l.crop);
            TurnedRead(s, u, v) == Exact(l.handle, cx, cy)
  {
    OrientationAngles(l);
    WholeSource(l);
    NormalIsRemainder(360);
    var n := ToQuarter(SrcAngle(l));
    var back := c.Turned(Opposite(n));
    CornerTurned(l.handle.width, l.handle.height, l.crop, n, back);
    TurnsCompose(l.handle.width, l.handle.height, n, Opposite(n), back.Of(l.crop).0, back.Of(l.crop).1);
    assert back.Turned(n) == c;
  }

  /** The corners of the destination, as the blitter sees them, are those of the frame. */
  lemma TargetCorner(w: int, h: int, l: Layer, c: Corner)
    requires l.handle.Native?
    ensures var n := ToQuarter(DstAngle(l));
            c.Turned(n).Of(DstView(w, h, l.frame, DstAngle(l))) == Turn(w, h, n, c.Of(l.frame).0, c.Of(l.frame).1)
  {
    OrientationAngles(l);
    NormalIsRemainder(0);
    CornerTurned(w, h, l.frame, ToQuarter(DstAngle(l)), c);
  }

  /** Which corner of the crop a corner of the frame is stretched from. */
  function CropCorner(l: Layer, c: Corner): Corner
    requires l.handle.Native?
  {
    var flips := Mirrored(l.transform);
    c.Turned(ToQuarter(DstAngle(l)))
     .Flipped(l.transform.flipH && flips, l.transform.flipV && flips)
     .Turned(Opposite(ToQuarter(SrcAngle(l))))
  }

  /** It is the one that the transform puts there. Mirror images that are turned as well come in NV12 only. */
  lemma CropCornerDisplayed(l: Layer, c: Corner)
    requires l.handle.Native? && (Mirrored(l.transform) && l.transform.rot90 ==> IsNV12(l.handle.format))
    ensures var (cw, ch) := (l.crop.Width(), l.crop.Height());
            var (x, y) := CropCorner(l, c).Of(l.crop);
            Displayed(l.transform, cw, ch, x - l.crop.left, y - l.crop.top)
            == c.Of(if l.transform.rot90 then Rect(0, 0, ch, cw) else Rect(0, 0, cw, ch))
  {
    OrientationAngles(l);
    NormalIsRemainder(0);
  }

  /**
    A layer that goes through the scaler is turned the same way: the request covers the frame, and its
    corners are the corners of the crop that the transform puts there.
   */
  lemma ScaledCorners(w: int, h: int, l: Layer, x: int, y: int, c: Corner)
    requires l.handle.Native? && (Mirrored(l.transform) && l.transform.rot90 ==> IsNV12(l.handle.format))
    ensures var r := WholeRead(w, h, l, x, y);
            && c.Turned(ToQuarter(r.dstOrientation)).Of(r.dstRect)
               == Turn(w, h, ToQuarter(r.dstOrientation), c.Of(l.frame).0, c.Of(l.frame).1)
            && var read := StretchedCorner(r, c);
               read.Exact? && read.handle == l.handle
               && Displayed(l.transform, l.crop.Width(), l.crop.Height(), read.x - l.crop.left, read.y - l.crop.top)
                  == c.Of(if l.transform.rot90 then Rect(0, 0, l.crop.Height(), l.crop.Width())
                          else Rect(0, 0, l.crop.Width(), l.crop.Height()))
  {
    TargetCorner(w, h, l, c);
    var flips := Mirrored(l.transform);
    SourceCorner(l, c.Turned(ToQuarter(DstAngle(l))).Flipped(l.transform.flipH && flips, l.transform.flipV && flips));
    CropCornerDisplayed(l, c);
  }

  // ----- Reading piece by piece is reading the whole layer -----

  /** Unscaled mirror images reach the blitter only in the format NV12. */
  predicate Blittable(l: Layer) {
    l.handle.Native? && (Mirrored(l.transform) && !Scaled(l) ==> IsNV12(l.handle.format))
  }

  /** The source rectangle of a piece holds exactly the source points of the piece. */
  lemma SrcRectHoldsSourcePoints(l: Layer, region: Rect, x: int, y: int)
    requires !Scaled(l) && !Mirrored(l.transform)
    ensures var (sx, sy) := SourcePoint(l, x, y);
            Contains(SrcRect(l, region), sx, sy) <==> Contains(region, x, y)
  {
    ViewHoldsTurnedPoints(l.frame, region, ToQuarter(-Orientation(l.transform)), x, y);
  }

  /** A piece of the frame only reads inside the crop. */
  lemma SrcRectInsideCrop(l: Layer, region: Rect)
    requires l.frame.left <= region.left && region.right <= l.frame.right
    requires l.frame.top <= region.top && region.bottom <= l.frame.bottom
    ensures var s := SrcRect(l, region);
            l.crop.left <= s.left && s.right <= l.crop.right
            && l.crop.top <= s.top && s.bottom <= l.crop.bottom
  {
  }

  /** A mirrored piece comes out right only if it sits in the middle of what is mirrored. */
  predicate Centred(l: Layer, region: Rect) {
    var s := SrcRect(l, region);
    && (l.transform.flipH && !l.transform.flipV ==> s.left - l.crop.left == l.crop.right - s.right)
    && (l.transform.flipV && !l.transform.flipH ==> s.top - l.crop.top == l.crop.bottom - s.bottom)
  }

  /** Cutting out `region` shows the right part of the layer. */
  predicate Drawable(l: Layer, region: Rect) { Scaled(l) || Centred(l, region) }

  /** The whole frame always does. */
  lemma WholeDrawable(l: Layer)
    ensures Drawable(l, l.frame)
  {
  }

  function Opposite(n: Quarter): Quarter { if n == 0 then 0 else 360 - n }

  lemma OrientationAngles(l: Layer)
    ensures var o := Orientation(l.transform);
            o in {0, 90, 180, 270} && ToQuarter(o) == o
            && ToQuarter(-o) == Opposite(o) && ToQuarter(360 - o) == Opposite(o)
    ensures ToQuarter(360) == 0
  {
    NormalIsRemainder(Orientation(l.transform));
    NormalIsRemainder(-Orientation(l.transform));
    NormalIsRemainder(360 - Orientation(l.transform));
  }

  /** Turning the source: the piece at `region` shows the layer's own pixels. */
  lemma TurnedSourceReads(l: Layer, region: Rect, e: Entry, x: int, y: int)
    requires l.handle.Native? && !Scaled(l) && !Mirrored(l.transform)
    requires e.dstRect == region
    ensures var (sx, sy) := SourcePoint(l, x, y);
            ReadOf(SourceSurface(l, region, Orientation(l.transform)), e, x, y, x, y) == Exact(l.handle, sx, sy)
  {
    OrientationAngles(l);
    SourceSurfaceTurned(l, region);
    var s := SourceSurface(l, region, Orientation(l.transform));
    var r := SrcRect(l, region);
    var n := ToQuarter(Orientation(l.transform));
    var (sx, sy) := SourcePoint(l, x, y);
    TurnedOffset(l.handle.width, l.handle.height, r, n, x - region.left, y - region.top);
    SourceOffset(l, region, x, y);
  }

  lemma SourceSurfaceTurned(l: Layer, region: Rect)
    requires l.handle.Native? && !Mirrored(l.transform)
    ensures var n := ToQuarter(Orientation(l.transform));
            var (w, h) := (l.handle.width, l.handle.height);
            SourceSurface(l, region, Orientation(l.transform))
            == Surface(l.handle, Orientation(l.transform), if Sideways(n) then h else w,
                       if Sideways(n) then w else h,
                       QuarterView(Screen(w, h), SrcRect(l, region), n), false, false)
  {
    OrientationAngles(l);
  }

  /** Offset (du, dv) inside the turned view of `r` is offset `Turn`ed back inside `r` itself. */
  lemma TurnedOffset(w: int, h: int, r: Rect, n: Quarter, du: int, dv: int)
    ensures var view := QuarterView(Screen(w, h), r, n);
            var (vw, vh) := if Sideways(n) then (h, w) else (w, h);
            var (rx, ry) := Turn(view.Width(), view.Height(), Opposite(n), du, dv);
            Turn(vw, vh, Opposite(n), view.left + du, view.top + dv) == (r.left + rx, r.top + ry)
  {
  }

  /** The source point of a pixel, relative to the source rectangle of the piece it lies in. */
  lemma SourceOffset(l: Layer, region: Rect, x: int, y: int)
    requires !Scaled(l) && !Mirrored(l.transform)
    ensures var n := ToQuarter(Orientation(l.transform));
            var (rx, ry) := Turn(region.Width(), region.Height(), Opposite(n),
                                 x - region.left, y - region.top);
            SourcePoint(l, x, y) == (SrcRect(l, region).left + rx, SrcRect(l, region).top + ry)
  {
    OrientationAngles(l);
  }

  /** Turning the destination instead: the same pixels, exactly if the piece is centred. */
  lemma TurnedTargetReads(w: int, h: int, l: Layer, region: Rect, e: Entry, x: int, y: int)
    requires l.handle.Native? && !Scaled(l)
    requires e.dstOrientation == 360 - Orientation(l.transform)
    requires e.dstRect == RotatedView(Screen(w, h), region, e.dstOrientation)
    ensures var (u, v) := Turn(w, h, ToQuarter(e.dstOrientation), x, y);
            var (sx, sy) := SourcePoint(l, x, y);
            ReadOf(SourceSurface(l, region, 0), e, u, v, x, y) == Exact(l.handle, sx, sy) <==> Centred(l, region)
  {
    PieceFetches(w, h, l, region, e, x, y);
    MirroredPieceExact(w, h, l, region, x, y);
  }

  lemma PieceFetches(w: int, h: int, l: Layer, region: Rect, e: Entry, x: int, y: int)
    requires l.handle.Native? && !Scaled(l)
    requires e.dstOrientation == 360 - Orientation(l.transform)
    requires e.dstRect == RotatedView(Screen(w, h), region, e.dstOrientation)
    ensures var (u, v) := Turn(w, h, ToQuarter(e.dstOrientation), x, y);
            var (px, py) := PiecePoint(w, h, l, region, x, y);
            ReadOf(SourceSurface(l, region, 0), e, u, v, x, y) == Exact(l.handle, px, py)
  {
    OrientationAngles(l);
    var s := SourceSurface(l, region, 0);
    assert s.rect.Width() == e.dstRect.Width() && s.rect.Height() == e.dstRect.Height();
  }

  /** The buffer coordinates a piece of an NV12 layer reads for screen pixel (x, y). */
  function PiecePoint(w: int, h: int, l: Layer, region: Rect, x: int, y: int): (int, int)
    requires l.handle.Native?
  {
    var s := SourceSurface(l, region, 0);
    var dst := RotatedView(Screen(w, h), region, 360 - Orientation(l.transform));
    var (u, v) := Turn(w, h, ToQuarter(360 - Orientation(l.transform)), x, y);
    (s.rect.left + (if s.flipH then s.rect.Width() - 1 - (u - dst.left) else u - dst.left),
     s.rect.top + (if s.flipV then s.rect.Height() - 1 - (v - dst.top) else v - dst.top))
  }

  /** For unscaled NV12 layers, which alone may be mirrored, cutting is right exactly when centred. */
  lemma MirroredPieceExact(w: int, h: int, l: Layer, region: Rect, x: int, y: int)
    requires l.handle.Native? && !Scaled(l)
    ensures PiecePoint(w, h, l, region, x, y) == SourcePoint(l, x, y) <==> Centred(l, region)
  {
    OrientationAngles(l);
  }

  /**
    The command that draws a piece reads, at every pixel, what the whole layer shows there, exactly
    if the piece is drawable.
   */
  lemma PieceReadsLayer(w: int, h: int, l: Layer, region: Rect, x: int, y: int)
    requires Blittable(l)
    ensures PieceRead(w, h, l, region, x, y) == LayerRead(w, h, l, x, y) <==> Drawable(l, region)
  {
    OrientationAngles(l);
    var e := CopyEntry(w, h, region, l);
    if Scaled(l) {
      var s := SourceSurface(l, l.frame, SrcAngle(l));
      assert s.rect.Width() != e.dstRect.Width() || s.rect.Height() != e.dstRect.Height();
    } else if IsNV12(l.handle.format) {
      TurnedTargetReads(w, h, l, region, e, x, y);
    } else {
      TurnedSourceReads(l, region, e, x, y);
    }
  }

  // ----- The effect of each command -----

  predicate OnScreen(w: int, h: int, x: int, y: int) { Contains(Screen(w, h), x, y) }

  lemma DstViewHolds(w: int, h: int, r: Rect, o: Angle, x: int, y: int)
    ensures var (u, v) := Turn(w, h, ToQuarter(o), x, y);
            Contains(DstView(w, h, r, o), u, v) <==> Contains(r, x, y)
  {
    ViewHoldsTurnedPoints(Screen(w, h), r, ToQuarter(o), x, y);
    NormalIsRemainder(0);
  }

  /** Which pixels a drawing command touches: those of its region. */
  lemma TouchesRegion(w: int, h: int, l: Layer, region: Rect, x: int, y: int)
    requires l.handle.Native? && OnScreen(w, h, x, y)
    requires Contains(region, x, y) ==> Contains(l.frame, x, y)
    ensures var e := CopyEntry(w, h, region, l);
            var (u, v) := Turn(w, h, ToQuarter(e.dstOrientation), x, y);
            (Contains(e.clip, u, v) && Contains(e.dstRect, u, v)) <==> Contains(region, x, y)
  {
    DstViewHolds(w, h, DrawRect(l, region), DstAngle(l), x, y);
    DstViewHolds(w, h, ClipTo(w, h, region), DstAngle(l), x, y);
  }

  lemma CopyStep(tx: Textures, w: int, h: int, region: Rect, l: Layer, x: int, y: int, p: Pixel)
    requires l.handle.Native? && OnScreen(w, h, x, y)
    requires Contains(region, x, y) ==> Contains(l.frame, x, y)
    ensures Step(tx, w, h, CopyEntry(w, h, region, l), x, y, p)
            == if Contains(region, x, y) then Fetch(tx, PieceRead(w, h, l, region, x, y)) else p
  {
    TouchesRegion(w, h, l, region, x, y);
  }

  lemma BlendStep(tx: Textures, w: int, h: int, region: Rect, l: Layer, x: int, y: int, p: Pixel)
    requires l.handle.Native? && OnScreen(w, h, x, y)
    requires Contains(region, x, y) ==> Contains(l.frame, x, y)
    ensures Step(tx, w, h, BlendEntry(w, h, region, l), x, y, p)
            == if Contains(region, x, y) then Over(Fetch(tx, PieceRead(w, h, l, region, x, y)), p) else p
  {
    TouchesRegion(w, h, l, region, x, y);
  }

  /** `rgz_can_blend_together`. */
  predicate CanBlendTogether(a: Layer, b: Layer)
    requires a.handle.Native? && b.handle.Native?
  {
    !Scaled(a) && !Scaled(b) && !IsNV12(a.handle.format) && !IsNV12(b.handle.format)
  }

  lemma ViewSize(outer: Rect, inner: Rect, n: Quarter)
    ensures var v := QuarterView(outer, inner, n);
            if Sideways(n) then v.Width() == inner.Height() && v.Height() == inner.Width()
            else v.Width() == inner.Width() && v.Height() == inner.Height()
  {
  }

  /** The source rectangle is turned one way and the surface the other way. */
  lemma SourceSize(l: Layer, region: Rect)
    requires l.handle.Native? && !Scaled(l)
    ensures var s := SourceSurface(l, region, Orientation(l.transform));
            s.rect.Width() == region.Width() && s.rect.Height() == region.Height()
  {
    OrientationAngles(l);
    var o := Orientation(l.transform);
    ViewSize(l.frame, region, ToQuarter(-o));
    ViewSize(Screen(l.handle.width, l.handle.height), SrcRect(l, region), ToQuarter(o));
  }

  /** The second source of a merged command reads what a command of its own would. */
  lemma SecondSourceReads(w: int, h: int, region: Rect, top: Layer, below: Layer, x: int, y: int)
    requires top.handle.Native? && below.handle.Native? && CanBlendTogether(top, below)
    ensures var e := BlendPairEntry(w, h, region, top, below);
            e.dstOrientation == 0 && e.dstRect == region
            && ReadOf(e.src2.surface, e, x, y, x, y) == PieceRead(w, h, below, region, x, y)
  {
    SourceSize(below, region);
    NormalIsRemainder(0);
    var (e, c) := (BlendPairEntry(w, h, region, top, below), CopyEntry(w, h, region, below));
    assert e.src2.surface == c.src1.surface && e.dstRect == c.dstRect == region;
  }

  /** And its first source what the upper layer's own command would, in the same place. */
  lemma FirstSourceReads(w: int, h: int, region: Rect, top: Layer, below: Layer, x: int, y: int)
    requires top.handle.Native? && below.handle.Native? && CanBlendTogether(top, below) && OnScreen(w, h, x, y)
    requires Contains(region, x, y) ==> Contains(top.frame, x, y)
    ensures var e := BlendPairEntry(w, h, region, top, below);
            && Turn(w, h, ToQuarter(e.dstOrientation), x, y) == (x, y)
            && ReadOf(e.src1.surface, e, x, y, x, y) == PieceRead(w, h, top, region, x, y)
            && (Contains(e.clip, x, y) && Contains(e.dstRect, x, y) <==> Contains(region, x, y))
  {
    var (e, c) := (BlendPairEntry(w, h, region, top, below), CopyEntry(w, h, region, top));
    TouchesRegion(w, h, top, region, x, y);
    NormalIsRemainder(0);
    assert c.dstOrientation == 0 && e == c.(blend := true, src2 := e.src2);
    ReadAlike(e.src1.surface, e, c, x, y);
  }

  /** What a source contributes does not depend on the other one. */
  lemma ReadAlike(s: Surface, e: Entry, c: Entry, x: int, y: int)
    requires e == c.(blend := e.blend, src2 := e.src2)
    ensures ReadOf(s, e, x, y, x, y) == ReadOf(s, c, x, y, x, y)
  {
  }

  lemma BlendPairStep(tx: Textures, w: int, h: int, region: Rect, top: Layer, below: Layer,
                      x: int, y: int, p: Pixel)
    requires top.handle.Native? && below.handle.Native? && OnScreen(w, h, x, y)
    requires CanBlendTogether(top, below)
    requires Contains(region, x, y) ==> Contains(top.frame, x, y)
    ensures Step(tx, w, h, BlendPairEntry(w, h, region, top, below), x, y, p)
            == if Contains(region, x, y)
               then Over(Fetch(tx, PieceRead(w, h, top, region, x, y)),
                         Fetch(tx, PieceRead(w, h, below, region, x, y)))
               else p
  {
    var e := BlendPairEntry(w, h, region, top, below);
    FirstSourceReads(w, h, region, top, below, x, y);
    SecondSourceReads(w, h, region, top, below, x, y);
    StepBlends(tx, w, h, e, x, y, p);
  }

  /** A command that blends two buffers. */
  lemma StepBlends(tx: Textures, w: int, h: int, e: Entry, x: int, y: int, p: Pixel)
    requires e.blend && e.src1.Image1? && e.src2.Image2?
    requires Turn(w, h, ToQuarter(e.dstOrientation), x, y) == (x, y)
    ensures Step(tx, w, h, e, x, y, p)
            == if Contains(e.clip, x, y) && Contains(e.dstRect, x, y)
               then Over(Fetch(tx, ReadOf(e.src1.surface, e, x, y, x, y)),
                         Fetch(tx, ReadOf(e.src2.surface, e, x, y, x, y)))
               else p
  {
  }

  lemma ClearStep(tx: Textures, w: int, h: int, region: Rect, x: int, y: int, p: Pixel)
    requires OnScreen(w, h, x, y)
    ensures Step(tx, w, h, ClearEntry(w, h, region), x, y, p)
            == if Contains(region, x, y) then CLEAR else p
  {
    NormalIsRemainder(0);
  }
}
