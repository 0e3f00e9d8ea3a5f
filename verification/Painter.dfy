/**
  The painter's algorithm: what a z-ordered list of layers shows at a screen pixel. With whole
  layers it is the meaning every output mode of the regionizer is measured against; with pieces of
  layers it is what the commands for one cell draw.
 */
module Painter {
  import opened Geometry
  import opened Pixels
  import opened Layers
  import opened Blits

  /** A layer that hides whatever lies below it: where `get_layer_ops` stops its walk. */
  predicate Replaces(l: RgzLayer)
    requires SafeHandle(l)
  {
    l.hwc.blending != Premult || IsOpaque(l.hwc.handle.format)
  }

  /** Images have a buffer; the rest carry the dummy handle and are not blended (hwc.c:1686). */
  predicate SafeHandle(l: RgzLayer) {
    if IsImage(l) then l.hwc.handle.Native?
    else l.hwc.handle == Dummy && l.hwc.blending != Premult
  }

  predicate SafeHandles(layers: seq<RgzLayer>) {
    forall i :: 0 <= i < |layers| ==> SafeHandle(layers[i])
  }

  /** How layers are read: whole, or as the piece that is cut out for a cell. */
  datatype View = Whole | CutTo(cell: Rect)

  function ReadVia(v: View, w: int, h: int, l: Layer, x: int, y: int): Read
    requires l.handle.Native?
  {
    match v
    case Whole => LayerRead(w, h, l, x, y)
    case CutTo(cell) => PieceRead(w, h, l, cell, x, y)
  }

  /** The pixel of layer `l` at screen position (x, y). */
  function LayerAt(tx: Textures, w: int, h: int, v: View, l: Layer, x: int, y: int): Pixel
    requires l.handle.Native?
  {
    Fetch(tx, ReadVia(v, w, h, l, x, y))
  }

  lemma OpaqueLayer(tx: Textures, w: int, h: int, v: View, l: Layer, x: int, y: int)
    requires OpaqueFormats(tx) && l.handle.Native? && IsOpaque(l.handle.format)
    ensures LayerAt(tx, w, h, v, l, x, y).a == 1.0
  {
    ReadsOwnBuffer(w, h, l, if v.CutTo? then v.cell else l.frame, x, y);
  }

  /** One painting step. The background and clear hints leave transparent pixels behind. */
  function Paint(tx: Textures, w: int, h: int, v: View, l: RgzLayer, x: int, y: int, below: Pixel): Pixel
    requires SafeHandle(l)
  {
    if !IsImage(l) then CLEAR
    else if l.hwc.blending == Premult then Over(LayerAt(tx, w, h, v, l.hwc, x, y), below)
    else LayerAt(tx, w, h, v, l.hwc, x, y)
  }

  /** Painting the lowest `k` layers, back to front, each inside its frame. */
  function Compose(tx: Textures, w: int, h: int, v: View, layers: seq<RgzLayer>, k: nat, x: int, y: int): Pixel
    requires k <= |layers| && SafeHandles(layers)
  {
    if k == 0 then CLEAR
    else
      var below := Compose(tx, w, h, v, layers, k - 1, x, y);
      if Contains(layers[k - 1].hwc.frame, x, y)
      then Paint(tx, w, h, v, layers[k - 1], x, y, below) else below
  }

  function ComposeAll(tx: Textures, w: int, h: int, v: View, layers: seq<RgzLayer>, x: int, y: int): Pixel
    requires SafeHandles(layers)
  {
    Compose(tx, w, h, v, layers, |layers|, x, y)
  }

  /** Some layer that can be seen at (x, y), among the lowest `k`, is marked dirty. */
  predicate VisibleDirty(layers: seq<RgzLayer>, k: nat, x: int, y: int)
    requires k <= |layers| && SafeHandles(layers)
  {
    k > 0 &&
    if !Contains(layers[k - 1].hwc.frame, x, y) then VisibleDirty(layers, k - 1, x, y)
    else layers[k - 1].dirty > 0 || (!Replaces(layers[k - 1]) && VisibleDirty(layers, k - 1, x, y))
  }

  /** The pixels region mode draws: damaged ones, and those showing a dirty layer. */
  predicate Redrawn(layers: seq<RgzLayer>, damage: Rect, x: int, y: int)
    requires SafeHandles(layers)
  {
    Contains(damage, x, y) || VisibleDirty(layers, |layers|, x, y)
  }

  /** A replacing layer does not depend on what is below it. */
  lemma ReplacesHides(tx: Textures, w: int, h: int, v: View, l: RgzLayer, x: int, y: int, p: Pixel, q: Pixel)
    requires SafeHandle(l) && Replaces(l) && OpaqueFormats(tx)
    ensures Paint(tx, w, h, v, l, x, y, p) == Paint(tx, w, h, v, l, x, y, q)
  {
    if l.hwc.blending == Premult {
      OpaqueLayer(tx, w, h, v, l.hwc, x, y);
      OverOpaque(LayerAt(tx, w, h, v, l.hwc, x, y), p);
      OverOpaque(LayerAt(tx, w, h, v, l.hwc, x, y), q);
    }
  }

  /** Buffers as empty as their formats allow. */
  function EmptyPixel(h: Handle): Pixel { if h.Native? && IsOpaque(h.format) then Pixel(0.0, 0.0, 0.0, 1.0) else CLEAR }

  function EmptyBuffers(): (tx: Textures)
    ensures OpaqueFormats(tx)
  {
    Textures((h: Handle, x: int, y: int) => EmptyPixel(h), (r: ScaledRead) => EmptyPixel(r.surface.handle))
  }

  /** The painting step does not depend on what is below, whatever the buffers hold. */
  ghost predicate Hides(w: int, h: int, v: View, l: RgzLayer, x: int, y: int)
    requires SafeHandle(l)
  {
    forall tx, p, q :: OpaqueFormats(tx) ==> Paint(tx, w, h, v, l, x, y, p) == Paint(tx, w, h, v, l, x, y, q)
  }

  /** The walk stops exactly at the layers that hide what is below. */
  lemma ReplacesExactly(w: int, h: int, v: View, l: RgzLayer, x: int, y: int)
    requires SafeHandle(l)
    ensures Replaces(l) <==> Hides(w, h, v, l, x, y)
  {
    if Replaces(l) {
      forall tx, p, q | OpaqueFormats(tx) ensures Paint(tx, w, h, v, l, x, y, p) == Paint(tx, w, h, v, l, x, y, q) {
        ReplacesHides(tx, w, h, v, l, x, y, p, q);
      }
    } else {
      var (tx, black) := (EmptyBuffers(), Pixel(0.0, 0.0, 0.0, 1.0));
      ReadsOwnBuffer(w, h, l.hwc, if v.CutTo? then v.cell else l.hwc.frame, x, y);
      assert Paint(tx, w, h, v, l, x, y, CLEAR) == CLEAR && Paint(tx, w, h, v, l, x, y, black) == black;
    }
  }

  /** Layers that do not cover the pixel can be skipped. */
  lemma {:induction false} ComposeSkips(tx: Textures, w: int, h: int, v: View, layers: seq<RgzLayer>,
                                        j: nat, k: nat, x: int, y: int)
    requires j <= k <= |layers| && SafeHandles(layers)
    requires forall i :: j <= i < k ==> !Contains(layers[i].hwc.frame, x, y)
    ensures Compose(tx, w, h, v, layers, j, x, y) == Compose(tx, w, h, v, layers, k, x, y)
    decreases k
  {
    if j < k {
      ComposeSkips(tx, w, h, v, layers, j, k - 1, x, y);
    }
  }

  // ----- Selecting the layers of a horizontal region -----

  /** The layers, among the lowest `k`, whose frame meets `rect`, in order. */
  function Select(layers: seq<RgzLayer>, k: nat, rect: Rect): (s: seq<RgzLayer>)
    requires k <= |layers|
    ensures forall l :: l in s ==> l in layers[..k] && Intersects(rect, l.hwc.frame)
    ensures forall i :: 0 <= i < k && Intersects(rect, layers[i].hwc.frame) ==> layers[i] in s
    ensures |s| <= k
  {
    if k == 0 then []
    else if Intersects(rect, layers[k - 1].hwc.frame) then Select(layers, k - 1, rect) + [layers[k - 1]]
    else Select(layers, k - 1, rect)
  }

  /** Only the painted layers matter. */
  lemma {:induction false} ComposePrefix(tx: Textures, w: int, h: int, v: View, a: seq<RgzLayer>, b: seq<RgzLayer>,
                                         k: nat, x: int, y: int)
    requires k <= |a| && SafeHandles(a) && SafeHandles(a + b)
    ensures Compose(tx, w, h, v, a + b, k, x, y) == Compose(tx, w, h, v, a, k, x, y)
  {
    if k > 0 {
      ComposePrefix(tx, w, h, v, a, b, k - 1, x, y);
    }
  }

  lemma {:induction false} DirtyPrefix(a: seq<RgzLayer>, b: seq<RgzLayer>, k: nat, x: int, y: int)
    requires k <= |a| && SafeHandles(a) && SafeHandles(a + b)
    ensures VisibleDirty(a + b, k, x, y) == VisibleDirty(a, k, x, y)
  {
    if k > 0 {
      DirtyPrefix(a, b, k - 1, x, y);
    }
  }

  lemma ComposeTop(tx: Textures, w: int, h: int, v: View, a: seq<RgzLayer>, l: RgzLayer, x: int, y: int)
    requires SafeHandles(a) && SafeHandle(l)
    ensures SafeHandles(a + [l])
    ensures ComposeAll(tx, w, h, v, a + [l], x, y)
            == if Contains(l.hwc.frame, x, y) then Paint(tx, w, h, v, l, x, y, ComposeAll(tx, w, h, v, a, x, y))
               else ComposeAll(tx, w, h, v, a, x, y)
  {
    ComposePrefix(tx, w, h, v, a, [l], |a|, x, y);
    assert (a + [l])[|a|] == l;
  }

  lemma DirtyTop(a: seq<RgzLayer>, l: RgzLayer, x: int, y: int)
    requires SafeHandles(a) && SafeHandle(l)
    ensures SafeHandles(a + [l])
    ensures VisibleDirty(a + [l], |a| + 1, x, y)
            == if Contains(l.hwc.frame, x, y) then l.dirty > 0 || (!Replaces(l) && VisibleDirty(a, |a|, x, y))
               else VisibleDirty(a, |a|, x, y)
  {
    DirtyPrefix(a, [l], |a|, x, y);
    assert (a + [l])[|a|] == l;
  }

  lemma {:induction false} SelectSafe(layers: seq<RgzLayer>, k: nat, rect: Rect)
    requires k <= |layers| && SafeHandles(layers)
    ensures SafeHandles(Select(layers, k, rect))
  {
    if k > 0 {
      SelectSafe(layers, k - 1, rect);
    }
  }

  /** Inside the region, painting the selected layers is painting all of them. */
  lemma {:induction false} ComposeSelected(tx: Textures, w: int, h: int, v: View, layers: seq<RgzLayer>, k: nat,
                                           rect: Rect, x: int, y: int)
    requires k <= |layers| && SafeHandles(layers) && Contains(rect, x, y) && SafeHandles(Select(layers, k, rect))
    ensures ComposeAll(tx, w, h, v, Select(layers, k, rect), x, y) == Compose(tx, w, h, v, layers, k, x, y)
  {
    if k > 0 {
      SelectSafe(layers, k - 1, rect);
      ComposeSelected(tx, w, h, v, layers, k - 1, rect, x, y);
      var l := layers[k - 1];
      if Intersects(rect, l.hwc.frame) {
        ComposeTop(tx, w, h, v, Select(layers, k - 1, rect), l, x, y);
      } else {
        assert !Contains(l.hwc.frame, x, y);
      }
    }
  }

  /** And they show the same dirt. */
  lemma {:induction false} DirtySelected(layers: seq<RgzLayer>, k: nat, rect: Rect, x: int, y: int)
    requires k <= |layers| && SafeHandles(layers) && Contains(rect, x, y) && SafeHandles(Select(layers, k, rect))
    ensures VisibleDirty(Select(layers, k, rect), |Select(layers, k, rect)|, x, y) == VisibleDirty(layers, k, x, y)
  {
    if k > 0 {
      SelectSafe(layers, k - 1, rect);
      DirtySelected(layers, k - 1, rect, x, y);
      var l := layers[k - 1];
      if Intersects(rect, l.hwc.frame) {
        DirtyTop(Select(layers, k - 1, rect), l, x, y);
      } else {
        assert !Contains(l.hwc.frame, x, y);
      }
    }
  }
}
