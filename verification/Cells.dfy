/**
  Cells: rectangles cut so finely that each is wholly inside or wholly outside every layer and the
  damaged area. Painting a cell with blits, seen as mathematics.
 */
module Cells {
  import opened Geometry
  import opened Pixels
  import opened Layers
  import opened Blits
  import opened Painter

  predicate Covers(layers: seq<RgzLayer>, l: int, cell: Rect) {
    0 <= l < |layers| && Intersects(cell, layers[l].hwc.frame)
  }

  /** How many layers cover the cell, from `l` upwards. */
  function Count(layers: seq<RgzLayer>, cell: Rect, l: nat): nat
    requires l <= |layers|
    decreases |layers| - l
  {
    if l == |layers| then 0
    else (if Covers(layers, l, cell) then 1 else 0) + Count(layers, cell, l + 1)
  }

  lemma {:induction false} CountSkips(layers: seq<RgzLayer>, cell: Rect, j: nat, k: nat)
    requires j <= k <= |layers|
    requires forall i :: j <= i < k ==> !Covers(layers, i, cell)
    ensures Count(layers, cell, j) == Count(layers, cell, k)
    decreases k - j
  {
    if j < k {
      CountSkips(layers, cell, j + 1, k);
    }
  }

  /** The lowest covering layer above `l`, or -1. */
  ghost predicate IsNext(layers: seq<RgzLayer>, cell: Rect, l: int, n: int) {
    && (n == -1 || (l < n && Covers(layers, n, cell)))
    && forall i :: l < i < (if n == -1 then |layers| else n) ==> !Covers(layers, i, cell)
  }

  /** The layer the walk from the top stops at: the first replacing one, else the lowest. */
  ghost predicate IsBottom(layers: seq<RgzLayer>, cell: Rect, b: int)
    requires SafeHandles(layers)
  {
    && Covers(layers, b, cell)
    && (forall i :: b < i < |layers| && Covers(layers, i, cell) ==> !Replaces(layers[i]))
    && (Replaces(layers[b]) || forall i :: 0 <= i < b ==> !Covers(layers, i, cell))
  }

  /** A cell meets a rectangle only by lying inside it, as far as the screen goes. */
  ghost predicate Fits(w: int, h: int, cell: Rect, f: Rect) {
    Intersects(cell, f) ==>
      forall x, y :: OnScreen(w, h, x, y) && Contains(cell, x, y) ==> Contains(f, x, y)
  }

  /** A cell of the given layers, with the background showing wherever nothing else does. */
  ghost predicate IsCell(w: int, h: int, cell: Rect, layers: seq<RgzLayer>) {
    && SafeHandles(layers) && layers != []
    && (forall l :: 0 <= l < |layers| ==> Fits(w, h, cell, layers[l].hwc.frame))
    && (forall x, y :: OnScreen(w, h, x, y) && Contains(cell, x, y) ==>
          IsBackground(layers[0]) && Covers(layers, 0, cell))
  }

  /** Executing `es` leaves the pieces of the lowest `k` layers in the cell, and nothing else. */
  ghost predicate Drawn(w: int, h: int, es: seq<Entry>, cell: Rect,
                        layers: seq<RgzLayer>, k: nat)
    requires k <= |layers| && SafeHandles(layers)
  {
    forall tx, x, y, p :: OpaqueFormats(tx) && OnScreen(w, h, x, y) ==>
      Exec(tx, w, h, es, x, y, p)
      == if Contains(cell, x, y) then Compose(tx, w, h, CutTo(cell), layers, k, x, y) else p
  }

  /** In the cell, the lowest `l + 1` layers compose to layer `l` alone. */
  ghost predicate Bare(w: int, h: int, cell: Rect, layers: seq<RgzLayer>, l: nat)
    requires l < |layers| && SafeHandles(layers) && IsImage(layers[l])
  {
    forall tx, x, y :: OpaqueFormats(tx) && OnScreen(w, h, x, y) && Contains(cell, x, y) ==>
      Compose(tx, w, h, CutTo(cell), layers, l + 1, x, y) == LayerAt(tx, w, h, CutTo(cell), layers[l].hwc, x, y)
  }

  lemma ComposeCovered(tx: Textures, w: int, h: int, cell: Rect, layers: seq<RgzLayer>, l: nat,
                       x: int, y: int)
    requires IsCell(w, h, cell, layers) && Covers(layers, l, cell)
    requires OnScreen(w, h, x, y) && Contains(cell, x, y)
    ensures Compose(tx, w, h, CutTo(cell), layers, l + 1, x, y)
            == Paint(tx, w, h, CutTo(cell), layers[l], x, y, Compose(tx, w, h, CutTo(cell), layers, l, x, y))
  {
    assert Fits(w, h, cell, layers[l].hwc.frame);
  }

  /** From one covering layer to the next, nothing is painted. */
  lemma ComposeNext(tx: Textures, w: int, h: int, cell: Rect, layers: seq<RgzLayer>, l: nat, n: int,
                    x: int, y: int)
    requires IsCell(w, h, cell, layers) && l < |layers| && IsNext(layers, cell, l, n)
    requires OnScreen(w, h, x, y) && Contains(cell, x, y)
    ensures Compose(tx, w, h, CutTo(cell), layers, l + 1, x, y)
            == Compose(tx, w, h, CutTo(cell), layers, if n == -1 then |layers| else n, x, y)
  {
    forall i | l < i < (if n == -1 then |layers| else n) ensures !Contains(layers[i].hwc.frame, x, y) {
      assert !Covers(layers, i, cell);
    }
    ComposeSkips(tx, w, h, CutTo(cell), layers, l + 1, if n == -1 then |layers| else n, x, y);
  }

  /** On the screen, the bottom of the walk hides everything below it. */
  lemma BottomReplaces(w: int, h: int, cell: Rect, layers: seq<RgzLayer>, b: int, x: int, y: int)
    requires IsCell(w, h, cell, layers) && IsBottom(layers, cell, b)
    requires OnScreen(w, h, x, y) && Contains(cell, x, y)
    ensures Replaces(layers[b])
  {
    assert Covers(layers, 0, cell) && Replaces(layers[0]);
  }

  /** A bottom layer that is an image is drawn bare. */
  lemma BottomBare(w: int, h: int, cell: Rect, layers: seq<RgzLayer>, b: int)
    requires IsCell(w, h, cell, layers) && IsBottom(layers, cell, b)
    requires IsImage(layers[b])
    ensures Bare(w, h, cell, layers, b)
  {
    forall tx, x, y | OpaqueFormats(tx) && OnScreen(w, h, x, y) && Contains(cell, x, y)
      ensures Compose(tx, w, h, CutTo(cell), layers, b + 1, x, y) == LayerAt(tx, w, h, CutTo(cell), layers[b].hwc, x, y)
    {
      BottomReplaces(w, h, cell, layers, b, x, y);
      ComposeCovered(tx, w, h, cell, layers, b, x, y);
      ReplacesHides(tx, w, h, CutTo(cell), layers[b], x, y, Compose(tx, w, h, CutTo(cell), layers, b, x, y), CLEAR);
      OverClear(LayerAt(tx, w, h, CutTo(cell), layers[b].hwc, x, y));
    }
  }

  /** So is the layer right above a bottom without an image. */
  lemma AboveHoleBare(w: int, h: int, cell: Rect, layers: seq<RgzLayer>, b: int, n: int)
    requires IsCell(w, h, cell, layers) && IsBottom(layers, cell, b) && !IsImage(layers[b])
    requires IsNext(layers, cell, b, n) && n != -1
    ensures IsImage(layers[n]) && Bare(w, h, cell, layers, n)
  {
    assert Covers(layers, n, cell) && !Replaces(layers[n]);
    forall tx, x, y | OpaqueFormats(tx) && OnScreen(w, h, x, y) && Contains(cell, x, y)
      ensures Compose(tx, w, h, CutTo(cell), layers, n + 1, x, y) == LayerAt(tx, w, h, CutTo(cell), layers[n].hwc, x, y)
    {
      ComposeCovered(tx, w, h, cell, layers, b, x, y);
      ComposeNext(tx, w, h, cell, layers, b, n, x, y);
      ComposeCovered(tx, w, h, cell, layers, n, x, y);
      OverClear(LayerAt(tx, w, h, CutTo(cell), layers[n].hwc, x, y));
    }
  }

  /** Layers above the bottom are blended. */
  lemma AboveBottomBlended(layers: seq<RgzLayer>, cell: Rect, b: int, l: int)
    requires SafeHandles(layers) && IsBottom(layers, cell, b) && b < l && Covers(layers, l, cell)
    ensures IsImage(layers[l]) && layers[l].hwc.blending == Premult
  {
    assert !Replaces(layers[l]);
  }

  // ----- The commands for a cell, one by one -----

  lemma ExecOne(tx: Textures, w: int, h: int, e: Entry, x: int, y: int, p: Pixel)
    ensures Exec(tx, w, h, [e], x, y, p) == Step(tx, w, h, e, x, y, p)
  {
    assert [e][..0] == [];
  }

  lemma CoveredPixel(w: int, h: int, cell: Rect, layers: seq<RgzLayer>, l: int, x: int, y: int)
    requires IsCell(w, h, cell, layers) && Covers(layers, l, cell) && OnScreen(w, h, x, y)
    ensures Contains(cell, x, y) ==> Contains(layers[l].hwc.frame, x, y)
  {
    assert Fits(w, h, cell, layers[l].hwc.frame);
  }

  lemma DrawClear(w: int, h: int, cell: Rect, layers: seq<RgzLayer>, b: int)
    requires IsCell(w, h, cell, layers) && Covers(layers, b, cell) && !IsImage(layers[b])
    ensures Drawn(w, h, [ClearEntry(w, h, cell)], cell, layers, b + 1)
  {
    var e := ClearEntry(w, h, cell);
    forall tx, x, y, p | OpaqueFormats(tx) && OnScreen(w, h, x, y)
      ensures Exec(tx, w, h, [e], x, y, p)
              == if Contains(cell, x, y) then Compose(tx, w, h, CutTo(cell), layers, b + 1, x, y) else p
    {
      ExecOne(tx, w, h, e, x, y, p);
      ClearStep(tx, w, h, cell, x, y, p);
      if Contains(cell, x, y) {
        ComposeCovered(tx, w, h, cell, layers, b, x, y);
      }
    }
  }

  lemma DrawCopy(w: int, h: int, cell: Rect, layers: seq<RgzLayer>, l: int)
    requires IsCell(w, h, cell, layers) && Covers(layers, l, cell)
    requires IsImage(layers[l]) && Bare(w, h, cell, layers, l)
    ensures Drawn(w, h, [CopyEntry(w, h, cell, layers[l].hwc)], cell, layers, l + 1)
  {
    var e := CopyEntry(w, h, cell, layers[l].hwc);
    forall tx, x, y, p | OpaqueFormats(tx) && OnScreen(w, h, x, y)
      ensures Exec(tx, w, h, [e], x, y, p)
              == if Contains(cell, x, y) then Compose(tx, w, h, CutTo(cell), layers, l + 1, x, y) else p
    {
      ExecOne(tx, w, h, e, x, y, p);
      CoveredPixel(w, h, cell, layers, l, x, y);
      CopyStep(tx, w, h, cell, layers[l].hwc, x, y, p);
    }
  }

  lemma DrawPair(w: int, h: int, cell: Rect, layers: seq<RgzLayer>, l: int, n: int)
    requires IsCell(w, h, cell, layers) && Covers(layers, l, cell)
    requires IsImage(layers[l]) && Bare(w, h, cell, layers, l)
    requires n != -1 && IsNext(layers, cell, l, n)
    requires IsImage(layers[n]) && layers[n].hwc.blending == Premult
    requires CanBlendTogether(layers[n].hwc, layers[l].hwc)
    ensures Drawn(w, h, [BlendPairEntry(w, h, cell, layers[n].hwc, layers[l].hwc)], cell, layers, n + 1)
  {
    var e := BlendPairEntry(w, h, cell, layers[n].hwc, layers[l].hwc);
    forall tx, x, y, p | OpaqueFormats(tx) && OnScreen(w, h, x, y)
      ensures Exec(tx, w, h, [e], x, y, p)
              == if Contains(cell, x, y) then Compose(tx, w, h, CutTo(cell), layers, n + 1, x, y) else p
    {
      ExecOne(tx, w, h, e, x, y, p);
      CoveredPixel(w, h, cell, layers, n, x, y);
      BlendPairStep(tx, w, h, cell, layers[n].hwc, layers[l].hwc, x, y, p);
      if Contains(cell, x, y) {
        ComposeNext(tx, w, h, cell, layers, l, n, x, y);
        ComposeCovered(tx, w, h, cell, layers, n, x, y);
      }
    }
  }

  lemma DrawBlend(w: int, h: int, cell: Rect, layers: seq<RgzLayer>, l: int, n: int,
                  es: seq<Entry>)
    requires IsCell(w, h, cell, layers) && 0 <= l < |layers|
    requires Drawn(w, h, es, cell, layers, l + 1)
    requires n != -1 && IsNext(layers, cell, l, n)
    requires IsImage(layers[n]) && layers[n].hwc.blending == Premult
    ensures Drawn(w, h, es + [BlendEntry(w, h, cell, layers[n].hwc)], cell, layers, n + 1)
  {
    var e := BlendEntry(w, h, cell, layers[n].hwc);
    forall tx, x, y, p | OpaqueFormats(tx) && OnScreen(w, h, x, y)
      ensures Exec(tx, w, h, es + [e], x, y, p)
              == if Contains(cell, x, y) then Compose(tx, w, h, CutTo(cell), layers, n + 1, x, y) else p
    {
      var q := Exec(tx, w, h, es, x, y, p);
      ExecConcat(tx, w, h, es, [e], x, y, p);
      ExecOne(tx, w, h, e, x, y, q);
      CoveredPixel(w, h, cell, layers, n, x, y);
      BlendStep(tx, w, h, cell, layers[n].hwc, x, y, q);
      if Contains(cell, x, y) {
        ComposeNext(tx, w, h, cell, layers, l, n, x, y);
        ComposeCovered(tx, w, h, cell, layers, n, x, y);
      }
    }
  }

  /** When no covering layer is left, the cell is finished. */
  lemma DrawnAll(w: int, h: int, cell: Rect, layers: seq<RgzLayer>, l: int, es: seq<Entry>)
    requires IsCell(w, h, cell, layers) && 0 <= l < |layers| && IsNext(layers, cell, l, -1)
    requires Drawn(w, h, es, cell, layers, l + 1)
    ensures Drawn(w, h, es, cell, layers, |layers|)
  {
    forall tx, x, y, p | OpaqueFormats(tx) && OnScreen(w, h, x, y)
      ensures Exec(tx, w, h, es, x, y, p)
              == if Contains(cell, x, y) then Compose(tx, w, h, CutTo(cell), layers, |layers|, x, y) else p
    {
      if Contains(cell, x, y) {
        ComposeNext(tx, w, h, cell, layers, l, -1, x, y);
      }
    }
  }

  // ----- Which cells need drawing -----

  /** Some layer from `l` upwards that covers the cell is dirty. */
  ghost predicate DirtyFrom(layers: seq<RgzLayer>, cell: Rect, l: int) {
    exists i :: l <= i < |layers| && Covers(layers, i, cell) && layers[i].dirty > 0
  }

  /** What the walk over the covering layers decides is what holds at each pixel of the cell. */
  lemma {:induction false} DirtyCellPixel(w: int, h: int, cell: Rect, layers: seq<RgzLayer>, b: int,
                                          k: nat, x: int, y: int)
    requires IsCell(w, h, cell, layers) && IsBottom(layers, cell, b) && b < k <= |layers|
    requires OnScreen(w, h, x, y) && Contains(cell, x, y)
    ensures VisibleDirty(layers, k, x, y)
            == exists i :: b <= i < k && Covers(layers, i, cell) && layers[i].dirty > 0
  {
    BottomReplaces(w, h, cell, layers, b, x, y);
    var l := layers[k - 1];
    assert Covers(layers, k - 1, cell) <==> Contains(l.hwc.frame, x, y) by {
      assert Fits(w, h, cell, l.hwc.frame);
    }
    if b < k - 1 {
      DirtyCellPixel(w, h, cell, layers, b, k - 1, x, y);
    }
  }
}
