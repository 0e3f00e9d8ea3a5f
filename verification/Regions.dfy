/** Cutting the screen into horizontal regions and these into cells, along all layer edges. */
module Regions {
  import opened Geometry
  import opened SortUnique
  import opened Layers
  import opened Blits
  import opened Painter
  import opened Cells
  import opened DirtyTracking
  import opened Output

  // ----- Edges -----

  /** The vertical edges within a region: the damaged area, then the lowest `k` layers. */
  function XEdges(damage: Rect, layers: seq<RgzLayer>, w: int, k: nat): (s: seq<int>)
    requires k <= |layers|
    ensures |s| == 2 + 2 * k
  {
    if k == 0 then [damage.left, damage.right]
    else XEdges(damage, layers, w, k - 1)
         + [Max(0, layers[k - 1].hwc.frame.left), Min(layers[k - 1].hwc.frame.right, w)]
  }

  /** The layer reaches the screen's rows, or at least touches them. */
  predicate Spans(h: int, l: RgzLayer) { l.hwc.frame.top <= h && l.hwc.frame.bottom >= 0 }

  /** The horizontal edges of the screen. */
  function YEdges(damage: Rect, layers: seq<RgzLayer>, h: int, k: nat): (s: seq<int>)
    requires k <= |layers|
    ensures |s| == 2 + 2 * k
  {
    if k == 0 then [damage.top, damage.bottom]
    else YEdges(damage, layers, h, k - 1)
         + [Max(0, layers[k - 1].hwc.frame.top), Min(layers[k - 1].hwc.frame.bottom, h)]
  }

  lemma {:induction false} XEdgesHold(damage: Rect, layers: seq<RgzLayer>, w: int, k: nat)
    requires k <= |layers|
    ensures damage.left in XEdges(damage, layers, w, k) && damage.right in XEdges(damage, layers, w, k)
    ensures forall i :: 0 <= i < k ==>
      Max(0, layers[i].hwc.frame.left) in XEdges(damage, layers, w, k)
      && Min(layers[i].hwc.frame.right, w) in XEdges(damage, layers, w, k)
  {
    if k > 0 {
      XEdgesHold(damage, layers, w, k - 1);
      var xs := XEdges(damage, layers, w, k);
      assert xs[2 * k] in xs && xs[2 * k + 1] in xs;
    }
  }

  lemma {:induction false} YEdgesHold(damage: Rect, layers: seq<RgzLayer>, h: int, k: nat)
    requires k <= |layers|
    ensures damage.top in YEdges(damage, layers, h, k) && damage.bottom in YEdges(damage, layers, h, k)
    ensures forall i :: 0 <= i < k ==>
      Max(0, layers[i].hwc.frame.top) in YEdges(damage, layers, h, k)
      && Min(layers[i].hwc.frame.bottom, h) in YEdges(damage, layers, h, k)
  {
    if k > 0 {
      YEdgesHold(damage, layers, h, k - 1);
      var ys := YEdges(damage, layers, h, k);
      assert ys[2 * k] in ys && ys[2 * k + 1] in ys;
    }
  }

  /** If all layers reach the screen's rows, no horizontal edge lies off the screen. */
  lemma {:induction false} YEdgesOnScreen(damage: Rect, layers: seq<RgzLayer>, h: int, k: nat)
    requires k <= |layers| && 0 <= damage.top <= h && 0 <= damage.bottom <= h
    requires forall i :: 0 <= i < k ==> Spans(h, layers[i])
    ensures forall v :: v in YEdges(damage, layers, h, k) ==> 0 <= v <= h
  {
    if k > 0 {
      YEdgesOnScreen(damage, layers, h, k - 1);
      assert Spans(h, layers[k - 1]);
    }
  }

  ghost predicate SameValues(a: seq<int>, b: seq<int>) { forall v :: v in a <==> v in b }

  /** No edge lies strictly inside a cell. */
  lemma NoEdgeInside(cuts: seq<int>, s: nat, v: int)
    requires Increasing(cuts) && s + 1 < |cuts| && v in cuts
    ensures v <= cuts[s] || cuts[s + 1] <= v
  {
    var k :| 0 <= k < |cuts| && cuts[k] == v;
  }

  /** In one dimension: a piece that meets lo..hi lies inside it, as far as 0..size goes. */
  lemma PieceFits(cuts: seq<int>, s: nat, lo: int, hi: int, size: int, v: int)
    requires Increasing(cuts) && s + 1 < |cuts|
    requires Max(0, lo) in cuts && Min(hi, size) in cuts
    requires cuts[s + 1] > lo && cuts[s] < hi
    requires cuts[s] <= v < cuts[s + 1] && 0 <= v < size
    ensures lo <= v < hi
  {
    NoEdgeInside(cuts, s, Max(0, lo));
    NoEdgeInside(cuts, s, Min(hi, size));
  }

  /** Every coordinate between two edges lies in some piece. */
  lemma FindPiece(cuts: seq<int>, v: int) returns (s: nat)
    requires Increasing(cuts) && |cuts| > 0 && cuts[0] <= v < cuts[|cuts| - 1]
    ensures s + 1 < |cuts| && cuts[s] <= v < cuts[s + 1]
  {
    s := 0;
    while cuts[s + 1] <= v
      invariant s + 1 < |cuts| && cuts[s] <= v
    {
      s := s + 1;
    }
  }

  lemma EndsBound(cuts: seq<int>, v: int)
    requires Increasing(cuts) && v in cuts
    ensures cuts[0] <= v <= cuts[|cuts| - 1]
  {
    var k :| 0 <= k < |cuts| && cuts[k] == v;
  }

  // ----- The cell of a pixel -----

  /** Two edges with no other edge between them. */
  ghost predicate Neighbours(edges: seq<int>, lo: int, hi: int) {
    lo < hi && lo in edges && hi in edges && forall e :: e in edges ==> e <= lo || hi <= e
  }

  lemma CutsAreNeighbours(cuts: seq<int>, edges: seq<int>, s: nat)
    requires Increasing(cuts) && SameValues(cuts, edges) && s + 1 < |cuts|
    ensures Neighbours(edges, cuts[s], cuts[s + 1])
  {
    assert cuts[s] in cuts && cuts[s + 1] in cuts;
    forall e | e in edges ensures e <= cuts[s] || cuts[s + 1] <= e {
      NoEdgeInside(cuts, s, e);
    }
  }

  /** The layers of the frame that meet the rows from `top` to `bottom`. */
  function RowLayers(w: int, cur: seq<RgzLayer>, top: int, bottom: int): seq<RgzLayer> {
    Select(cur, |cur|, Rect(0, top, w, bottom))
  }

  /** The pixel lies in `cell`, which is bounded by neighbouring edges of the frame on all sides. */
  ghost predicate HoldsPixel(w: int, h: int, cur: seq<RgzLayer>, damage: Rect, cell: Rect, x: int, y: int) {
    var row := RowLayers(w, cur, cell.top, cell.bottom);
    && Neighbours(YEdges(damage, cur, h, |cur|), cell.top, cell.bottom)
    && Neighbours(XEdges(damage, row, w, |row|), cell.left, cell.right)
    && Contains(cell, x, y)
  }

  /** The cell a pixel is drawn in. It only depends on the frame and the damaged area. */
  ghost function PixelCell(w: int, h: int, cur: seq<RgzLayer>, damage: Rect, x: int, y: int): Rect {
    if exists c :: HoldsPixel(w, h, cur, damage, c, x, y) then
      var c :| HoldsPixel(w, h, cur, damage, c, x, y); c
    else ZERO_RECT
  }

  lemma PixelCellIs(w: int, h: int, cur: seq<RgzLayer>, damage: Rect, cell: Rect, x: int, y: int)
    requires HoldsPixel(w, h, cur, damage, cell, x, y)
    ensures PixelCell(w, h, cur, damage, x, y) == cell
  {
    var c := PixelCell(w, h, cur, damage, x, y);
    assert HoldsPixel(w, h, cur, damage, c, x, y);
    assert c.top == cell.top && c.bottom == cell.bottom;
    assert c.left == cell.left && c.right == cell.right;
  }

  // ----- One horizontal region -----

  /** The first half of `rgz_gen_blitregions`: the sorted offsets fit the fixed array. */
  method XCuts(layers: seq<RgzLayer>, damage: Rect, w: int) returns (offsets: array<int>, noffsets: nat)
    requires 2 + 2 * |layers| <= SUBREGIONMAX
    ensures fresh(offsets) && 1 <= noffsets <= offsets.Length == SUBREGIONMAX && noffsets <= 2 + 2 * |layers|
    ensures Increasing(offsets[..noffsets])
    ensures SameValues(offsets[..noffsets], XEdges(damage, layers, w, |layers|))
  {
    offsets := new int[SUBREGIONMAX];
    offsets[0], offsets[1] := damage.left, damage.right;
    noffsets := 2;
    for l := 0 to |layers|
      invariant noffsets == 2 + 2 * l
      invariant offsets[..noffsets] == XEdges(damage, layers, w, l)
    {
      ghost var before := offsets[..noffsets];
      offsets[noffsets] := Max(0, layers[l].hwc.frame.left);
      noffsets := noffsets + 1;
      offsets[noffsets] := Min(layers[l].hwc.frame.right, w);
      noffsets := noffsets + 1;
      assert offsets[..noffsets] == before + [offsets[noffsets - 2], offsets[noffsets - 1]];
    }
    noffsets := SortAndUnique(offsets, noffsets);
  }

  /** The blit rectangles of one layer row, up to cell `r`. */
  ghost predicate RowFilled(row: seq<Rect>, layers: seq<RgzLayer>, l: int, rect: Rect, offs: seq<int>, r: int) {
    |row| == SUBREGIONMAX && |offs| <= SUBREGIONMAX &&
    forall s :: 0 <= s < |offs| - 1 ==>
      row[s] == if s < r && Covers(layers, l, CellOf(rect, offs, s)) then CellOf(rect, offs, s) else ZERO_RECT
  }

  /**
    `rgz_gen_blitregions`: cuts a region into cells at the edges of its layers and of the damaged
    area. Every blit rectangle is written inside its fixed array.
   */
  method GenBlitRegions(rect: Rect, layers: seq<RgzLayer>, damage: Rect, w: int)
    returns (hr: HRegion, ghost offs: seq<int>)
    requires rect.top < rect.bottom && 2 + 2 * |layers| <= SUBREGIONMAX
    ensures hr.rect == rect && hr.layers == layers
    ensures Cut(hr, offs) && SameValues(offs, XEdges(damage, layers, w, |layers|)) && |offs| <= 2 + 2 * |layers|
  {
    var offsets, noffsets := XCuts(layers, damage, w);
    offs := offsets[..noffsets];
    var blitrects := seq(MAXLAYERS, _ => seq(SUBREGIONMAX, _ => ZERO_RECT));
    for r := 0 to noffsets - 1
      invariant |blitrects| == MAXLAYERS
      invariant forall l :: 0 <= l < MAXLAYERS ==> |blitrects[l]| == SUBREGIONMAX
      invariant forall l :: 0 <= l < |layers| ==> RowFilled(blitrects[l], layers, l, rect, offs, r)
    {
      var subregion := Rect(offsets[r], rect.top, offsets[r + 1], rect.bottom);
      for l := 0 to |layers|
        invariant |blitrects| == MAXLAYERS
        invariant forall k :: 0 <= k < MAXLAYERS ==> |blitrects[k]| == SUBREGIONMAX
        invariant forall k :: 0 <= k < |layers| ==>
          RowFilled(blitrects[k], layers, k, rect, offs, if k < l then r + 1 else r)
      {
        if Intersects(subregion, layers[l].hwc.frame) {
          blitrects := blitrects[l := blitrects[l][r := subregion]];
        }
      }
    }
    hr := HRegion(rect, layers, noffsets - 1, blitrects);
  }

  // ----- All regions -----

  /** Region `i`: between two neighbouring horizontal edges, with the layers that meet it. */
  ghost predicate RegionOk(hr: HRegion, offs: seq<int>, cur: seq<RgzLayer>, damage: Rect,
                           w: int, top: int, bottom: int) {
    && hr.rect == Rect(0, top, w, bottom)
    && hr.layers == Select(cur, |cur|, hr.rect)
    && Cut(hr, offs) && SameValues(offs, XEdges(damage, hr.layers, w, |hr.layers|))
    && |offs| <= 2 + 2 * |hr.layers|
  }

  /** What `rgz_in_hwc` leaves behind. */
  ghost predicate RegionsOk(hregions: seq<HRegion>, ycuts: seq<int>, xcuts: seq<seq<int>>,
                            cur: seq<RgzLayer>, damage: Rect, w: int, h: int) {
    && |hregions| == |xcuts| == |ycuts| - 1 <= 1 + 2 * |cur|
    && Increasing(ycuts) && SameValues(ycuts, YEdges(damage, cur, h, |cur|))
    && forall i :: 0 <= i < |hregions| ==>
         RegionOk(hregions[i], xcuts[i], cur, damage, w, ycuts[i], ycuts[i + 1])
  }

  /** Some layer meets cell `s`. */
  ghost predicate Filled(hr: HRegion, offs: seq<int>, s: int) {
    0 <= s < |offs| - 1 && exists l :: Covers(hr.layers, l, CellOf(hr.rect, offs, s))
  }

  /** Each of the first `k` cells. */
  ghost predicate AllFilled(hr: HRegion, offs: seq<int>, k: nat) {
    k > 0 ==> AllFilled(hr, offs, k - 1) && Filled(hr, offs, k - 1)
  }

  lemma {:induction false} AllFilledMeans(hr: HRegion, offs: seq<int>, k: nat)
    ensures AllFilled(hr, offs, k) <==> forall s :: 0 <= s < k ==> Filled(hr, offs, s)
  {
    if k > 0 {
      AllFilledMeans(hr, offs, k - 1);
    }
  }

  /** The region has layers, and one of them meets every cell. */
  ghost predicate NoGaps(hr: HRegion, offs: seq<int>) {
    hr.layers != [] && AllFilled(hr, offs, hr.nsubregions)
  }

  lemma CellGap(hr: HRegion, offs: seq<int>, s: nat)
    requires s < hr.nsubregions && !Filled(hr, offs, s)
    ensures !NoGaps(hr, offs)
  {
    AllFilledMeans(hr, offs, hr.nsubregions);
  }

  /** What `rgz_out_region` asks of the first `k` regions. */
  ghost predicate Gapless(hregions: seq<HRegion>, xcuts: seq<seq<int>>, k: nat)
    requires k <= |hregions| == |xcuts|
  {
    k > 0 ==> Gapless(hregions, xcuts, k - 1) && NoGaps(hregions[k - 1], xcuts[k - 1])
  }

  lemma {:induction false} GaplessMeans(hregions: seq<HRegion>, xcuts: seq<seq<int>>, k: nat)
    requires k <= |hregions| == |xcuts|
    ensures Gapless(hregions, xcuts, k) <==> forall i :: 0 <= i < k ==> NoGaps(hregions[i], xcuts[i])
  {
    if k > 0 {
      GaplessMeans(hregions, xcuts, k - 1);
    }
  }

  /** One gap is enough. */
  lemma GapFound(hregions: seq<HRegion>, xcuts: seq<seq<int>>, i: nat)
    requires i < |hregions| == |xcuts| && !NoGaps(hregions[i], xcuts[i])
    ensures !Gapless(hregions, xcuts, |hregions|)
  {
    GaplessMeans(hregions, xcuts, |hregions|);
  }

  /** Its cells are the cells of the pixels in them. */
  lemma CellHoldsPixel(w: int, h: int, ycuts: seq<int>, i: nat, hr: HRegion, offs: seq<int>, s: nat,
                       cur: seq<RgzLayer>, damage: Rect, x: int, y: int)
    requires Increasing(ycuts) && SameValues(ycuts, YEdges(damage, cur, h, |cur|)) && i + 1 < |ycuts|
    requires RegionOk(hr, offs, cur, damage, w, ycuts[i], ycuts[i + 1]) && s < hr.nsubregions
    requires Contains(CellOf(hr.rect, offs, s), x, y)
    ensures PixelCell(w, h, cur, damage, x, y) == CellOf(hr.rect, offs, s)
  {
    CutsAreNeighbours(ycuts, YEdges(damage, cur, h, |cur|), i);
    CutsAreNeighbours(offs, XEdges(damage, hr.layers, w, |hr.layers|), s);
    PixelCellIs(w, h, cur, damage, CellOf(hr.rect, offs, s), x, y);
  }

  /** The damaged area lies on the screen. */
  predicate OnScreenDamage(d: Rect, w: int, h: int) {
    0 <= d.left <= w && 0 <= d.right <= w && 0 <= d.top <= h && 0 <= d.bottom <= h
  }

  /** A cell fits every rectangle whose clipped edges are among the cuts. */
  lemma CellFits(w: int, h: int, ycuts: seq<int>, i: nat, offs: seq<int>, s: nat, f: Rect)
    requires Increasing(ycuts) && i + 1 < |ycuts| && Increasing(offs) && s + 1 < |offs|
    requires Max(0, f.top) in ycuts && Min(f.bottom, h) in ycuts
    requires Max(0, f.left) in offs && Min(f.right, w) in offs
    ensures Fits(w, h, Rect(offs[s], ycuts[i], offs[s + 1], ycuts[i + 1]), f)
  {
    var cell := Rect(offs[s], ycuts[i], offs[s + 1], ycuts[i + 1]);
    if Intersects(cell, f) {
      forall x, y | OnScreen(w, h, x, y) && Contains(cell, x, y) ensures Contains(f, x, y) {
        PieceFits(ycuts, i, f.top, f.bottom, h, y);
        PieceFits(offs, s, f.left, f.right, w, x);
      }
    }
  }

  lemma {:induction false} SelectFirst(layers: seq<RgzLayer>, k: nat, rect: Rect)
    requires 1 <= k <= |layers| && Intersects(rect, layers[0].hwc.frame)
    ensures |Select(layers, k, rect)| >= 1 && Select(layers, k, rect)[0] == layers[0]
  {
    if k > 1 {
      SelectFirst(layers, k - 1, rect);
    }
  }

  /** The cells of the regions are cells in the sense of `Cells`: indivisible for every layer. */
  lemma RegionCells(w: int, h: int, hregions: seq<HRegion>, ycuts: seq<int>, xcuts: seq<seq<int>>,
                    cur: seq<RgzLayer>, damage: Rect, i: nat, s: nat)
    requires FrameState(w, h, cur) && OnScreenDamage(damage, w, h)
    requires RegionsOk(hregions, ycuts, xcuts, cur, damage, w, h)
    requires i < |hregions| && s + 1 < |xcuts[i]| && hregions[i].layers != []
    ensures var cell := CellOf(hregions[i].rect, xcuts[i], s);
            IsCell(w, h, cell, hregions[i].layers) && Fits(w, h, cell, damage)
  {
    var hr, offs := hregions[i], xcuts[i];
    assert RegionOk(hr, offs, cur, damage, w, ycuts[i], ycuts[i + 1]);
    var cell := CellOf(hr.rect, offs, s);
    YEdgesHold(damage, cur, h, |cur|);
    XEdgesHold(damage, hr.layers, w, |hr.layers|);
    CellFits(w, h, ycuts, i, offs, s, damage);
    forall l | 0 <= l < |hr.layers|
      ensures SafeHandle(hr.layers[l]) && Fits(w, h, cell, hr.layers[l].hwc.frame)
    {
      assert hr.layers[l] in hr.layers;
      var k :| 0 <= k < |cur| && cur[k] == hr.layers[l];
      CellFits(w, h, ycuts, i, offs, s, hr.layers[l].hwc.frame);
    }
    forall x, y | OnScreen(w, h, x, y) && Contains(cell, x, y)
      ensures IsBackground(hr.layers[0]) && Covers(hr.layers, 0, cell)
    {
      SelectFirst(cur, |cur|, hr.rect);
    }
  }
}
