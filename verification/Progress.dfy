/** Drawing cell after cell, row after row, until the whole screen is right. */
module Progress {
  import opened Geometry
  import opened SortUnique
  import opened Pixels
  import opened Layers
  import opened Blits
  import opened BlitList
  import opened Painter
  import opened Cells
  import opened DirtyTracking
  import opened Output
  import opened Regions

  /** Passed already: the rows above `top`, and of the row down to `bottom` what is left of `left`. */
  predicate Passed(top: int, bottom: int, left: int, x: int, y: int) {
    y < top || (y < bottom && x < left)
  }

  /** What drawing cell by cell puts into a pixel: the pieces of the layers that belong to its cell. */
  ghost function CutPixel(tx: Textures, w: int, h: int, cur: seq<RgzLayer>, damage: Rect, x: int, y: int): Pixel
    requires SafeHandles(cur)
  {
    ComposeAll(tx, w, h, CutTo(PixelCell(w, h, cur, damage, x, y)), cur, x, y)
  }

  /** `es` has brought every passed pixel up to date, and left the others alone. */
  ghost predicate Drawing(w: int, h: int, es: seq<Entry>, cur: seq<RgzLayer>, damage: Rect,
                          top: int, bottom: int, left: int)
    requires SafeHandles(cur)
  {
    forall tx, x, y, p :: OpaqueFormats(tx) && OnScreen(w, h, x, y) ==>
      Exec(tx, w, h, es, x, y, p)
      == if Passed(top, bottom, left, x, y) && Redrawn(cur, damage, x, y)
         then CutPixel(tx, w, h, cur, damage, x, y) else p
  }

  /** `es` redraws exactly the pixels that need it, on the whole screen. */
  ghost predicate Rendered(w: int, h: int, es: seq<Entry>, cur: seq<RgzLayer>, damage: Rect)
    requires SafeHandles(cur)
  {
    forall tx, x, y, p :: OpaqueFormats(tx) && OnScreen(w, h, x, y) ==>
      Exec(tx, w, h, es, x, y, p)
      == if Redrawn(cur, damage, x, y) then CutPixel(tx, w, h, cur, damage, x, y) else p
  }

  /** One more cell. */
  lemma DrawingCell(w: int, h: int, es: seq<Entry>, seg: seq<Entry>, cur: seq<RgzLayer>,
                    damage: Rect, hr: HRegion, ycuts: seq<int>, i: nat, offs: seq<int>, s: nat)
    requires SafeHandles(cur) && SafeHandles(hr.layers)
    requires Increasing(ycuts) && SameValues(ycuts, YEdges(damage, cur, h, |cur|)) && i + 1 < |ycuts|
    requires RegionOk(hr, offs, cur, damage, w, ycuts[i], ycuts[i + 1]) && s < hr.nsubregions
    requires Drawing(w, h, es, cur, damage, ycuts[i], ycuts[i + 1], offs[s])
    requires CellDone(w, h, seg, CellOf(hr.rect, offs, s), hr.layers, damage)
    ensures Drawing(w, h, es + seg, cur, damage, ycuts[i], ycuts[i + 1], offs[s + 1])
  {
    var cell := CellOf(hr.rect, offs, s);
    forall tx, x, y, p | OpaqueFormats(tx) && OnScreen(w, h, x, y)
      ensures Exec(tx, w, h, es + seg, x, y, p)
              == if Passed(ycuts[i], ycuts[i + 1], offs[s + 1], x, y) && Redrawn(cur, damage, x, y)
                 then CutPixel(tx, w, h, cur, damage, x, y) else p
    {
      ExecConcat(tx, w, h, es, seg, x, y, p);
      if Contains(cell, x, y) {
        ComposeSelected(tx, w, h, CutTo(cell), cur, |cur|, hr.rect, x, y);
        DirtySelected(cur, |cur|, hr.rect, x, y);
        CellHoldsPixel(w, h, ycuts, i, hr, offs, s, cur, damage, x, y);
      }
    }
  }

  /** A finished row is followed by the next one. */
  lemma DrawingRow(w: int, h: int, es: seq<Entry>, cur: seq<RgzLayer>, damage: Rect,
                   top: int, bottom: int, right: int, below: int, left: int)
    requires SafeHandles(cur) && top < bottom
    requires Drawing(w, h, es, cur, damage, top, bottom, right)
    requires right >= w || bottom <= 0 || top >= h
    requires left <= 0 || below <= 0 || bottom >= h
    ensures Drawing(w, h, es, cur, damage, bottom, below, left)
  {
    forall tx, x, y, p | OpaqueFormats(tx) && OnScreen(w, h, x, y)
      ensures Exec(tx, w, h, es, x, y, p)
              == if Passed(bottom, below, left, x, y) && Redrawn(cur, damage, x, y)
                 then CutPixel(tx, w, h, cur, damage, x, y) else p
    {
      assert Passed(bottom, below, left, x, y) == Passed(top, bottom, right, x, y);
    }
  }

  lemma DrawingBegins(w: int, h: int, cur: seq<RgzLayer>, damage: Rect,
                      top: int, bottom: int, left: int)
    requires SafeHandles(cur) && top <= 0 && (left <= 0 || bottom <= 0 || top >= h)
    ensures Drawing(w, h, [], cur, damage, top, bottom, left)
  {
  }

  lemma DrawingEnds(w: int, h: int, es: seq<Entry>, cur: seq<RgzLayer>, damage: Rect,
                    top: int, bottom: int, left: int)
    requires SafeHandles(cur) && top >= h && Drawing(w, h, es, cur, damage, top, bottom, left)
    ensures Rendered(w, h, es, cur, damage)
  {
  }

  /** A row of regions spans the screen from side to side, or lies off the screen. */
  lemma RowSpans(w: int, h: int, hregions: seq<HRegion>, ycuts: seq<int>, xcuts: seq<seq<int>>,
                 cur: seq<RgzLayer>, damage: Rect, i: nat)
    requires w > 0 && h > 0 && FrameState(w, h, cur) && OnScreenDamage(damage, w, h)
    requires RegionsOk(hregions, ycuts, xcuts, cur, damage, w, h) && i < |hregions|
    ensures var offs := xcuts[i];
            |offs| > 0 && (ycuts[i + 1] <= 0 || ycuts[i] >= h || (offs[0] <= 0 && offs[|offs| - 1] >= w))
  {
    var hr, offs := hregions[i], xcuts[i];
    assert RegionOk(hr, offs, cur, damage, w, ycuts[i], ycuts[i + 1]);
    assert Cut(hr, offs);
    if ycuts[i + 1] > 0 && ycuts[i] < h {
      RowEnds(w, h, hr, offs, cur, damage, ycuts[i], ycuts[i + 1]);
    }
  }

  /** With the background in it, a row reaches from side to side. */
  lemma RowEnds(w: int, h: int, hr: HRegion, offs: seq<int>, cur: seq<RgzLayer>, damage: Rect, top: int, bottom: int)
    requires w > 0 && h > 0 && FrameState(w, h, cur) && RegionOk(hr, offs, cur, damage, w, top, bottom)
    requires top < bottom && bottom > 0 && top < h
    ensures |offs| > 0 && offs[0] <= 0 && offs[|offs| - 1] >= w
  {
    SelectFirst(cur, |cur|, hr.rect);
    XEdgesHold(damage, hr.layers, w, |hr.layers|);
    EndsBound(offs, 0);
    EndsBound(offs, w);
  }

  /** The rows together reach from the top of the screen, or above, to its bottom, or below. */
  lemma RowsSpan(w: int, h: int, hregions: seq<HRegion>, ycuts: seq<int>, xcuts: seq<seq<int>>,
                 cur: seq<RgzLayer>, damage: Rect)
    requires w > 0 && h > 0 && FrameState(w, h, cur) && OnScreenDamage(damage, w, h)
    requires RegionsOk(hregions, ycuts, xcuts, cur, damage, w, h)
    ensures |hregions| > 0 && ycuts[0] <= 0 && ycuts[|hregions|] >= h
  {
    YEdgesHold(damage, cur, h, |cur|);
    EndsBound(ycuts, 0);
    EndsBound(ycuts, h);
  }

  /** Cell `s` of region `i` holds the pixel. */
  predicate CellHolds(hregions: seq<HRegion>, xcuts: seq<seq<int>>, i: nat, s: nat, x: int, y: int)
    requires |hregions| == |xcuts|
  {
    i < |hregions| && s + 1 < |xcuts[i]| && Contains(CellOf(hregions[i].rect, xcuts[i], s), x, y)
  }

  lemma OnePiece(cuts: seq<int>, a: nat, b: nat, v: int)
    requires Increasing(cuts) && a + 1 < |cuts| && b + 1 < |cuts|
    requires cuts[a] <= v < cuts[a + 1] && cuts[b] <= v < cuts[b + 1]
    ensures a == b
  {
  }

  /** Some cell holds the pixel, in a row that has the background. */
  lemma FindCell(w: int, h: int, hregions: seq<HRegion>, ycuts: seq<int>, xcuts: seq<seq<int>>,
                 cur: seq<RgzLayer>, damage: Rect, x: int, y: int) returns (i: nat, s: nat)
    requires w > 0 && h > 0 && FrameState(w, h, cur) && OnScreenDamage(damage, w, h) && OnScreen(w, h, x, y)
    requires RegionsOk(hregions, ycuts, xcuts, cur, damage, w, h)
    ensures CellHolds(hregions, xcuts, i, s, x, y) && hregions[i].layers != []
  {
    RowsSpan(w, h, hregions, ycuts, xcuts, cur, damage);
    i := FindPiece(ycuts, y);
    RowSpans(w, h, hregions, ycuts, xcuts, cur, damage, i);
    assert RegionOk(hregions[i], xcuts[i], cur, damage, w, ycuts[i], ycuts[i + 1]);
    s := FindPiece(xcuts[i], x);
    SelectFirst(cur, |cur|, hregions[i].rect);
  }

  /** No other cell does. */
  lemma OneCell(w: int, h: int, hregions: seq<HRegion>, ycuts: seq<int>, xcuts: seq<seq<int>>,
                cur: seq<RgzLayer>, damage: Rect, x: int, y: int, i: nat, s: nat, j: nat, t: nat)
    requires RegionsOk(hregions, ycuts, xcuts, cur, damage, w, h)
    requires CellHolds(hregions, xcuts, i, s, x, y) && CellHolds(hregions, xcuts, j, t, x, y)
    ensures j == i && t == s
  {
    assert RegionOk(hregions[i], xcuts[i], cur, damage, w, ycuts[i], ycuts[i + 1]);
    assert RegionOk(hregions[j], xcuts[j], cur, damage, w, ycuts[j], ycuts[j + 1]);
    OnePiece(ycuts, i, j, y);
    OnePiece(xcuts[i], s, t, x);
  }

  /** The cell's rectangles name exactly the layers whose frames hold the pixel. */
  ghost predicate NamesLayers(hr: HRegion, s: nat, cur: seq<RgzLayer>, x: int, y: int) {
    && |hr.layers| <= |hr.blitrects| && (forall l :: 0 <= l < |hr.layers| ==> s < |hr.blitrects[l]|)
    && (forall l :: 0 <= l < |hr.layers| ==>
          (!EmptyRect(hr.blitrects[l][s]) <==> Contains(hr.layers[l].hwc.frame, x, y)))
    && (forall k :: 0 <= k < |cur| && Contains(cur[k].hwc.frame, x, y) ==> cur[k] in hr.layers)
  }

  lemma CellNames(w: int, h: int, hr: HRegion, offs: seq<int>, s: nat, cur: seq<RgzLayer>, damage: Rect,
                  top: int, bottom: int, x: int, y: int)
    requires RegionOk(hr, offs, cur, damage, w, top, bottom) && s < hr.nsubregions
    requires IsCell(w, h, CellOf(hr.rect, offs, s), hr.layers) && OnScreen(w, h, x, y)
    requires Contains(CellOf(hr.rect, offs, s), x, y)
    ensures NamesLayers(hr, s, cur, x, y)
  {
    var cell := CellOf(hr.rect, offs, s);
    forall l | 0 <= l < |hr.layers|
      ensures s < |hr.blitrects[l]|
      ensures !EmptyRect(hr.blitrects[l][s]) <==> Contains(hr.layers[l].hwc.frame, x, y)
    {
      CutCovers(hr, offs, l, s);
      assert Fits(w, h, cell, hr.layers[l].hwc.frame);
    }
  }

  /**
    Main result: the cells partition the screen. Each pixel lies in exactly one cell, and that
    cell's rectangles name exactly the layers whose frames hold the pixel.
   */
  lemma CellsPartition(w: int, h: int, hregions: seq<HRegion>, ycuts: seq<int>, xcuts: seq<seq<int>>,
                       cur: seq<RgzLayer>, damage: Rect, x: int, y: int) returns (i: nat, s: nat)
    requires w > 0 && h > 0 && FrameState(w, h, cur) && OnScreenDamage(damage, w, h) && OnScreen(w, h, x, y)
    requires RegionsOk(hregions, ycuts, xcuts, cur, damage, w, h)
    ensures CellHolds(hregions, xcuts, i, s, x, y)
    ensures PixelCell(w, h, cur, damage, x, y) == CellOf(hregions[i].rect, xcuts[i], s)
    ensures forall j: nat, t: nat :: CellHolds(hregions, xcuts, j, t, x, y) ==> j == i && t == s
    ensures NamesLayers(hregions[i], s, cur, x, y)
    ensures Intersects(CellOf(hregions[i].rect, xcuts[i], s), damage) <==> Contains(damage, x, y)
  {
    i, s := FindCell(w, h, hregions, ycuts, xcuts, cur, damage, x, y);
    var hr, offs := hregions[i], xcuts[i];
    assert RegionOk(hr, offs, cur, damage, w, ycuts[i], ycuts[i + 1]);
    RegionCells(w, h, hregions, ycuts, xcuts, cur, damage, i, s);
    CellHoldsPixel(w, h, ycuts, i, hr, offs, s, cur, damage, x, y);
    CellNames(w, h, hr, offs, s, cur, damage, ycuts[i], ycuts[i + 1], x, y);
    forall j: nat, t: nat | CellHolds(hregions, xcuts, j, t, x, y) ensures j == i && t == s {
      OneCell(w, h, hregions, ycuts, xcuts, cur, damage, x, y, i, s, j, t);
    }
  }

  /** In a row on the screen no edge lies beyond the sides, so the background is in every cell. */
  lemma BackgroundEverywhere(w: int, h: int, hregions: seq<HRegion>, ycuts: seq<int>, xcuts: seq<seq<int>>,
                             cur: seq<RgzLayer>, damage: Rect, i: nat, s: nat)
    requires w > 0 && h > 0 && FrameState(w, h, cur) && OnScreenDamage(damage, w, h)
    requires RegionsOk(hregions, ycuts, xcuts, cur, damage, w, h)
    requires i < |hregions| && s + 1 < |xcuts[i]| && 0 <= ycuts[i] && ycuts[i + 1] <= h
    ensures hregions[i].layers != []
    ensures Covers(hregions[i].layers, 0, CellOf(hregions[i].rect, xcuts[i], s))
  {
    var hr, offs := hregions[i], xcuts[i];
    assert RegionOk(hr, offs, cur, damage, w, ycuts[i], ycuts[i + 1]);
    SelectFirst(cur, |cur|, hr.rect);
    XEdgesOnScreen(damage, hr.layers, w, h, |hr.layers|, hr.rect);
    assert offs[s] in offs && offs[s + 1] in offs;
  }

  lemma {:induction false} XEdgesOnScreen(damage: Rect, layers: seq<RgzLayer>, w: int, h: int, k: nat, rect: Rect)
    requires k <= |layers| && rect.left == 0 && rect.right == w && OnScreenDamage(damage, w, h)
    requires forall l :: l in layers ==> Intersects(rect, l.hwc.frame)
    ensures forall v :: v in XEdges(damage, layers, w, k) ==> 0 <= v <= w
  {
    if k > 0 {
      XEdgesOnScreen(damage, layers, w, h, k - 1, rect);
      assert layers[k - 1] in layers;
    }
  }

  /** Submission flags play no part in what is rendered. */
  lemma SameRendered(w: int, h: int, a: seq<Entry>, b: seq<Entry>, cur: seq<RgzLayer>, damage: Rect)
    requires SafeHandles(cur) && SameBlits(a, b) && Rendered(w, h, a, cur, damage)
    ensures Rendered(w, h, b, cur, damage)
  {
    forall tx, x, y, p | OpaqueFormats(tx) && OnScreen(w, h, x, y)
      ensures Exec(tx, w, h, b, x, y, p)
              == if Redrawn(cur, damage, x, y) then CutPixel(tx, w, h, cur, damage, x, y) else p
    {
      SameBlitsExec(tx, w, h, a, b, x, y, p);
    }
  }

  /** Up to date down to row `i`. */
  ghost predicate AtRow(w: int, h: int, es: seq<Entry>, cur: seq<RgzLayer>, damage: Rect,
                        ycuts: seq<int>, xcuts: seq<seq<int>>, i: nat)
    requires SafeHandles(cur) && |ycuts| == |xcuts| + 1 && i <= |xcuts|
    requires forall k :: 0 <= k < |xcuts| ==> |xcuts[k]| > 0
  {
    if i < |xcuts| then Drawing(w, h, es, cur, damage, ycuts[i], ycuts[i + 1], xcuts[i][0])
    else Drawing(w, h, es, cur, damage, ycuts[i], ycuts[i], 0)
  }

  lemma FirstRow(w: int, h: int, hregions: seq<HRegion>, ycuts: seq<int>, xcuts: seq<seq<int>>,
                 cur: seq<RgzLayer>, damage: Rect)
    requires w > 0 && h > 0 && FrameState(w, h, cur) && OnScreenDamage(damage, w, h)
    requires RegionsOk(hregions, ycuts, xcuts, cur, damage, w, h)
    ensures |hregions| > 0 && (forall k :: 0 <= k < |xcuts| ==> |xcuts[k]| > 0)
    ensures AtRow(w, h, [], cur, damage, ycuts, xcuts, 0)
  {
    RowsSpan(w, h, hregions, ycuts, xcuts, cur, damage);
    forall k | 0 <= k < |xcuts| ensures |xcuts[k]| > 0 {
      RowSpans(w, h, hregions, ycuts, xcuts, cur, damage, k);
    }
    RowSpans(w, h, hregions, ycuts, xcuts, cur, damage, 0);
    DrawingBegins(w, h, cur, damage, ycuts[0], ycuts[1], xcuts[0][0]);
  }

  lemma NextRow(w: int, h: int, hregions: seq<HRegion>, ycuts: seq<int>, xcuts: seq<seq<int>>,
                cur: seq<RgzLayer>, damage: Rect, i: nat, es: seq<Entry>)
    requires w > 0 && h > 0 && FrameState(w, h, cur) && OnScreenDamage(damage, w, h)
    requires RegionsOk(hregions, ycuts, xcuts, cur, damage, w, h) && i < |hregions|
    requires forall k :: 0 <= k < |xcuts| ==> |xcuts[k]| > 0
    requires Drawing(w, h, es, cur, damage, ycuts[i], ycuts[i + 1], xcuts[i][|xcuts[i]| - 1])
    ensures AtRow(w, h, es, cur, damage, ycuts, xcuts, i + 1)
  {
    RowSpans(w, h, hregions, ycuts, xcuts, cur, damage, i);
    var right := xcuts[i][|xcuts[i]| - 1];
    if i + 1 < |xcuts| {
      RowSpans(w, h, hregions, ycuts, xcuts, cur, damage, i + 1);
      DrawingRow(w, h, es, cur, damage, ycuts[i], ycuts[i + 1], right, ycuts[i + 2], xcuts[i + 1][0]);
    } else {
      DrawingRow(w, h, es, cur, damage, ycuts[i], ycuts[i + 1], right, ycuts[i + 1], 0);
    }
  }

  lemma LastRow(w: int, h: int, hregions: seq<HRegion>, ycuts: seq<int>, xcuts: seq<seq<int>>,
                cur: seq<RgzLayer>, damage: Rect, es: seq<Entry>)
    requires w > 0 && h > 0 && FrameState(w, h, cur) && OnScreenDamage(damage, w, h)
    requires RegionsOk(hregions, ycuts, xcuts, cur, damage, w, h)
    requires forall k :: 0 <= k < |xcuts| ==> |xcuts[k]| > 0
    requires AtRow(w, h, es, cur, damage, ycuts, xcuts, |hregions|)
    ensures Rendered(w, h, es, cur, damage)
  {
    RowsSpan(w, h, hregions, ycuts, xcuts, cur, damage);
    DrawingEnds(w, h, es, cur, damage, ycuts[|hregions|], ycuts[|hregions|], 0);
  }

  /** If every layer reaches the screen's rows, so does every region. */
  lemma SpanningRow(w: int, h: int, hregions: seq<HRegion>, ycuts: seq<int>, xcuts: seq<seq<int>>,
                    cur: seq<RgzLayer>, damage: Rect, i: nat)
    requires w > 0 && h > 0 && FrameState(w, h, cur) && OnScreenDamage(damage, w, h)
    requires RegionsOk(hregions, ycuts, xcuts, cur, damage, w, h) && i < |hregions|
    requires forall k :: 0 <= k < |cur| ==> Spans(h, cur[k])
    ensures 0 <= ycuts[i] && ycuts[i + 1] <= h && hregions[i].layers != []
  {
    YEdgesOnScreen(damage, cur, h, |cur|);
    assert ycuts[i] in ycuts && ycuts[i + 1] in ycuts;
    var hr := hregions[i];
    assert RegionOk(hr, xcuts[i], cur, damage, w, ycuts[i], ycuts[i + 1]);
    SelectFirst(cur, |cur|, hr.rect);
  }

  /** Then no cell is without a layer. */
  lemma SpanningGapless(w: int, h: int, hregions: seq<HRegion>, ycuts: seq<int>, xcuts: seq<seq<int>>,
                        cur: seq<RgzLayer>, damage: Rect)
    requires w > 0 && h > 0 && FrameState(w, h, cur) && OnScreenDamage(damage, w, h)
    requires RegionsOk(hregions, ycuts, xcuts, cur, damage, w, h)
    requires forall k :: 0 <= k < |cur| ==> Spans(h, cur[k])
    ensures Gapless(hregions, xcuts, |hregions|)
  {
    forall i | 0 <= i < |hregions| ensures NoGaps(hregions[i], xcuts[i]) {
      SpanningRow(w, h, hregions, ycuts, xcuts, cur, damage, i);
      assert RegionOk(hregions[i], xcuts[i], cur, damage, w, ycuts[i], ycuts[i + 1]);
      forall s | 0 <= s < hregions[i].nsubregions ensures Filled(hregions[i], xcuts[i], s) {
        BackgroundEverywhere(w, h, hregions, ycuts, xcuts, cur, damage, i, s);
      }
      AllFilledMeans(hregions[i], xcuts[i], hregions[i].nsubregions);
    }
    GaplessMeans(hregions, xcuts, |hregions|);
  }
}
