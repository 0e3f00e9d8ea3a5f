/** Turning one cell of a horizontal region into blit commands. */
module Output {
  import opened Geometry
  import opened SortUnique
  import opened Pixels
  import opened Layers
  import opened Blits
  import opened Painter
  import opened BlitList
  import opened Cells

  /** RGZ_MAXLAYERS and RGZ_SUBREGIONMAX: the fixed dimensions of `blit_hregion_t`. */
  const MAXLAYERS := 13
  const SUBREGIONMAX := 25

  /** `blitrects[l][s]` is cell `s` if layer `l` meets it and all zeros otherwise. */
  datatype HRegion = HRegion(rect: Rect, layers: seq<RgzLayer>, nsubregions: nat,
                             blitrects: seq<seq<Rect>>)

  predicate EmptyRect(r: Rect) { r == ZERO_RECT }

  function CellOf(rect: Rect, offs: seq<int>, s: nat): Rect
    requires s + 1 < |offs|
  {
    Rect(offs[s], rect.top, offs[s + 1], rect.bottom)
  }

  /** The region is cut at `offs`, and its rectangles say which layer meets which cell. */
  ghost predicate Cut(h: HRegion, offs: seq<int>) {
    && h.rect.top < h.rect.bottom
    && |h.layers| <= MAXLAYERS && |h.blitrects| == MAXLAYERS
    && (forall l :: 0 <= l < MAXLAYERS ==> |h.blitrects[l]| == SUBREGIONMAX)
    && |offs| == h.nsubregions + 1 <= SUBREGIONMAX && Increasing(offs)
    && forall l, s :: 0 <= l < |h.layers| && 0 <= s < h.nsubregions ==>
         h.blitrects[l][s]
         == if Covers(h.layers, l, CellOf(h.rect, offs, s)) then CellOf(h.rect, offs, s) else ZERO_RECT
  }

  lemma CutCovers(h: HRegion, offs: seq<int>, l: nat, s: nat)
    requires Cut(h, offs) && l < |h.layers| && s < h.nsubregions
    ensures EmptyRect(h.blitrects[l][s]) <==> !Covers(h.layers, l, CellOf(h.rect, offs, s))
  {
  }

  /** `get_layer_ops`: counts layers from the front until one that does not need blending. */
  method GetLayerOps(h: HRegion, s: nat, ghost offs: seq<int>) returns (ops: nat, bottom: int)
    requires Cut(h, offs) && s < h.nsubregions && h.layers != [] && SafeHandles(h.layers)
    ensures var cell := CellOf(h.rect, offs, s);
            if ops == 0 then bottom == -1 && forall l :: 0 <= l < |h.layers| ==> !Covers(h.layers, l, cell)
            else IsBottom(h.layers, cell, bottom) && ops == Count(h.layers, cell, bottom)
  {
    ghost var cell := CellOf(h.rect, offs, s);
    var l := |h.layers| - 1;
    ops, bottom := 0, -1;
    while true
      invariant 0 <= l < |h.layers|
      invariant ops == Count(h.layers, cell, l + 1)
      invariant forall i :: l < i < |h.layers| && Covers(h.layers, i, cell) ==> !Replaces(h.layers[i])
      invariant if bottom == -1 then forall i :: l < i < |h.layers| ==> !Covers(h.layers, i, cell)
                else l < bottom && Covers(h.layers, bottom, cell) && ops == Count(h.layers, cell, bottom)
                     && forall i :: l < i < bottom ==> !Covers(h.layers, i, cell)
      invariant ops == 0 <==> bottom == -1
      decreases l
    {
      if !EmptyRect(h.blitrects[l][s]) {
        ops := ops + 1;
        bottom := l;
        if h.layers[l].hwc.blending != Premult || IsOpaque(h.layers[l].hwc.handle.format) {
          break;
        }
      }
      if l == 0 { break; }
      l := l - 1;
    }
  }

  /** `get_layer_ops_next`: the next covering layer above `l`, or -1. */
  method GetLayerOpsNext(h: HRegion, s: nat, l: int, ghost offs: seq<int>) returns (n: int)
    requires Cut(h, offs) && s < h.nsubregions && -1 <= l < |h.layers|
    ensures IsNext(h.layers, CellOf(h.rect, offs, s), l, n)
  {
    n := l + 1;
    while n < |h.layers|
      invariant l < n <= |h.layers|
      invariant forall i :: l < i < n ==> !Covers(h.layers, i, CellOf(h.rect, offs, s))
    {
      if !EmptyRect(h.blitrects[n][s]) {
        return;
      }
      n := n + 1;
    }
    n := -1;
  }

  /** The commands `es` put the pieces of the cell's layers into exactly the pixels of the cell that need it. */
  ghost predicate CellDone(w: int, h: int, es: seq<Entry>, cell: Rect,
                           layers: seq<RgzLayer>, damage: Rect)
    requires SafeHandles(layers)
  {
    forall tx, x, y, p :: OpaqueFormats(tx) && OnScreen(w, h, x, y) ==>
      Exec(tx, w, h, es, x, y, p)
      == if Contains(cell, x, y) && Redrawn(layers, damage, x, y)
         then ComposeAll(tx, w, h, CutTo(cell), layers, x, y) else p
  }

  lemma DrawnIsDone(w: int, h: int, es: seq<Entry>, cell: Rect,
                    layers: seq<RgzLayer>, damage: Rect)
    requires SafeHandles(layers) && Drawn(w, h, es, cell, layers, |layers|)
    requires forall x, y :: OnScreen(w, h, x, y) && Contains(cell, x, y) ==> Redrawn(layers, damage, x, y)
    ensures CellDone(w, h, es, cell, layers, damage)
  {
  }

  /** The decision taken for the whole cell is right for each of its pixels. */
  lemma CellRedrawn(w: int, h: int, cell: Rect, layers: seq<RgzLayer>, damage: Rect, b: int, dirty: bool)
    requires IsCell(w, h, cell, layers) && IsBottom(layers, cell, b) && Fits(w, h, cell, damage)
    requires dirty == (Intersects(damage, cell) || DirtyFrom(layers, cell, b))
    ensures forall x, y :: OnScreen(w, h, x, y) && Contains(cell, x, y) ==>
              Redrawn(layers, damage, x, y) == dirty
  {
    forall x, y | OnScreen(w, h, x, y) && Contains(cell, x, y)
      ensures Redrawn(layers, damage, x, y) == dirty
    {
      DirtyCellPixel(w, h, cell, layers, b, |layers|, x, y);
    }
  }

  lemma SameDrawn(w: int, h: int, a: seq<Entry>, b: seq<Entry>, cell: Rect,
                  layers: seq<RgzLayer>, k: nat)
    requires k <= |layers| && SafeHandles(layers) && SameBlits(a, b)
    requires Drawn(w, h, a, cell, layers, k)
    ensures Drawn(w, h, b, cell, layers, k)
  {
    forall tx, x, y, p | OpaqueFormats(tx) && OnScreen(w, h, x, y)
      ensures Exec(tx, w, h, b, x, y, p)
              == if Contains(cell, x, y) then Compose(tx, w, h, CutTo(cell), layers, k, x, y) else p
    {
      SameBlitsExec(tx, w, h, a, b, x, y, p);
    }
  }

  /**
    `rgz_hwc_subregion_blit` with blending enabled: appends the commands for cell `s`, if it is
    dirty. It fails exactly when no layer meets the cell.
   */
  method SubregionBlit(hr: HRegion, s: nat, damage: Rect, w: int, h: int, blts: BltList,
                       ghost offs: seq<int>) returns (ok: bool)
    requires Cut(hr, offs) && s < hr.nsubregions && blts.Valid()
    requires IsCell(w, h, CellOf(hr.rect, offs, s), hr.layers)
    requires Fits(w, h, CellOf(hr.rect, offs, s), damage)
    modifies blts
    ensures blts.Valid() && old(blts.asked) <= blts.asked
    ensures ok <==> exists l :: Covers(hr.layers, l, CellOf(hr.rect, offs, s))
    ensures ok ==> Queued(blts.asked[|old(blts.asked)|..]) && Closed(blts.asked[|old(blts.asked)|..])
    ensures |blts.asked| <= |old(blts.asked)| + |hr.layers|
    ensures ok ==>
              CellDone(w, h, blts.asked[|old(blts.asked)|..], CellOf(hr.rect, offs, s), hr.layers, damage)
  {
    ghost var cell := CellOf(hr.rect, offs, s);
    var layers := hr.layers;
    var ldepth, lix := GetLayerOps(hr, s, offs);
    if ldepth == 0 {
      return false;
    }
    ghost var bottom := lix;
    assert Covers(layers, bottom, cell);
    var dirty := false;
    var rect := hr.blitrects[lix][s];
    if Intersects(damage, rect) {
      dirty := true;
    } else {
      var dirtylix := lix;
      while dirtylix != -1
        invariant dirtylix == -1 || (lix <= dirtylix < |layers| && Covers(layers, dirtylix, cell))
        invariant forall i :: lix <= i < (if dirtylix == -1 then |layers| else dirtylix) ==>
                    Covers(layers, i, cell) ==> layers[i].dirty == 0
        invariant !dirty
        modifies {}
        decreases if dirtylix == -1 then 0 else |layers| - dirtylix
      {
        if layers[dirtylix].dirty > 0 {
          dirty := true;
          break;
        }
        dirtylix := GetLayerOpsNext(hr, s, dirtylix, offs);
      }
    }
    CellRedrawn(w, h, cell, layers, damage, bottom, dirty);
    ok := true;
    if !dirty {
      assert blts.asked[|old(blts.asked)|..] == [];
      return;
    }
    EmitCell(hr, s, ldepth, lix, w, h, blts, offs);
    DrawnIsDone(w, h, blts.asked[|old(blts.asked)|..], cell, layers, damage);
  }

  // ----- Counting -----

  lemma {:induction false} CountZero(layers: seq<RgzLayer>, cell: Rect, j: nat)
    requires j <= |layers|
    ensures Count(layers, cell, j) == 0 <==> forall i :: j <= i < |layers| ==> !Covers(layers, i, cell)
    decreases |layers| - j
  {
    if j < |layers| {
      CountZero(layers, cell, j + 1);
    }
  }

  lemma CountOne(layers: seq<RgzLayer>, cell: Rect, l: nat)
    requires Covers(layers, l, cell)
    ensures Count(layers, cell, l) >= 1
    ensures Count(layers, cell, l) == 1 <==> IsNext(layers, cell, l, -1)
  {
    CountZero(layers, cell, l + 1);
  }

  lemma NextCounts(layers: seq<RgzLayer>, cell: Rect, l: nat, n: int)
    requires Covers(layers, l, cell) && IsNext(layers, cell, l, n) && Count(layers, cell, l) > 1
    ensures n != -1 && Count(layers, cell, n) == Count(layers, cell, l) - 1
  {
    CountOne(layers, cell, l);
    if n != -1 {
      CountSkips(layers, cell, l + 1, n);
    }
  }

  lemma ClearedCell(w: int, h: int, cell: Rect, layers: seq<RgzLayer>, b: int)
    requires IsCell(w, h, cell, layers) && Covers(layers, b, cell) && !IsImage(layers[b])
    requires Count(layers, cell, b) == 1
    ensures Drawn(w, h, [ClearEntry(w, h, cell)], cell, layers, |layers|)
  {
    CountOne(layers, cell, b);
    DrawClear(w, h, cell, layers, b);
    DrawnAll(w, h, cell, layers, b, [ClearEntry(w, h, cell)]);
  }

  /** The part of `rgz_hwc_subregion_blit` past the dirty test. */
  method EmitCell(hr: HRegion, s: nat, ldepth0: nat, bottom: nat, w: int, h: int, blts: BltList,
                  ghost offs: seq<int>)
    requires Cut(hr, offs) && s < hr.nsubregions && blts.Valid()
    requires IsCell(w, h, CellOf(hr.rect, offs, s), hr.layers)
    requires IsBottom(hr.layers, CellOf(hr.rect, offs, s), bottom)
    requires ldepth0 == Count(hr.layers, CellOf(hr.rect, offs, s), bottom)
    modifies blts
    ensures blts.Valid() && old(blts.asked) <= blts.asked
    ensures Queued(blts.asked[|old(blts.asked)|..]) && Closed(blts.asked[|old(blts.asked)|..])
    ensures |blts.asked| <= |old(blts.asked)| + |hr.layers|
    ensures Drawn(w, h, blts.asked[|old(blts.asked)|..], CellOf(hr.rect, offs, s), hr.layers, |hr.layers|)
  {
    ghost var cell := CellOf(hr.rect, offs, s);
    ghost var start := |blts.asked|;
    var layers := hr.layers;
    var ldepth, lix := FirstImage(hr, s, ldepth0, bottom, w, h, offs);
    var rect := hr.blitrects[lix][s];
    if ldepth == 0 {
      blts.Get(ClearEntry(w, h, rect));
      assert blts.asked[start..] == [ClearEntry(w, h, cell)];
      ClearedCell(w, h, cell, layers, lix);
    } else if ldepth > 1 {
      EmitBatch(hr, s, lix, bottom, w, h, blts, offs);
    } else {
      blts.Get(CopyEntry(w, h, rect, layers[lix].hwc));
      assert blts.asked[start..] == [CopyEntry(w, h, cell, layers[lix].hwc)];
      CopiedCell(w, h, cell, layers, lix);
    }
  }

  lemma CopiedCell(w: int, h: int, cell: Rect, layers: seq<RgzLayer>, l: int)
    requires IsCell(w, h, cell, layers) && Covers(layers, l, cell) && Count(layers, cell, l) == 1
    requires IsImage(layers[l]) && Bare(w, h, cell, layers, l)
    ensures Drawn(w, h, [CopyEntry(w, h, cell, layers[l].hwc)], cell, layers, |layers|)
  {
    CountOne(layers, cell, l);
    DrawCopy(w, h, cell, layers, l);
    DrawnAll(w, h, cell, layers, l, [CopyEntry(w, h, cell, layers[l].hwc)]);
  }

  /**
    The layer to begin with, and how many there are from it up: the background and a clear hint are
    passed over. None are left if such a layer is all there is.
   */
  method FirstImage(hr: HRegion, s: nat, ldepth0: nat, bottom: nat, w: int, h: int, ghost offs: seq<int>)
    returns (ldepth: nat, lix: nat)
    requires Cut(hr, offs) && s < hr.nsubregions && IsCell(w, h, CellOf(hr.rect, offs, s), hr.layers)
    requires IsBottom(hr.layers, CellOf(hr.rect, offs, s), bottom)
    requires ldepth0 == Count(hr.layers, CellOf(hr.rect, offs, s), bottom)
    ensures bottom <= lix && Covers(hr.layers, lix, CellOf(hr.rect, offs, s))
    ensures if ldepth == 0 then !IsImage(hr.layers[lix]) && Count(hr.layers, CellOf(hr.rect, offs, s), lix) == 1
            else ldepth == Count(hr.layers, CellOf(hr.rect, offs, s), lix) && IsImage(hr.layers[lix])
                 && Bare(w, h, CellOf(hr.rect, offs, s), hr.layers, lix)
  {
    ghost var cell := CellOf(hr.rect, offs, s);
    var layers := hr.layers;
    ldepth, lix := ldepth0, bottom;
    CountOne(layers, cell, lix);
    if layers[lix].buffidx == BACKGROUND_BUFFIDX {
      ldepth := ldepth - 1;
      if ldepth == 0 { return; }
      lix := AboveHole(hr, s, bottom, w, h, offs);
    }
    if layers[lix].buffidx == CLEARHINT_BUFFIDX {
      ldepth := ldepth - 1;
      if ldepth == 0 { return; }
      lix := AboveHole(hr, s, bottom, w, h, offs);
    }
    if lix == bottom { BottomBare(w, h, cell, layers, bottom); }
  }

  /** The next layer above a bottom without an image: it is an image, and drawn bare. */
  method AboveHole(hr: HRegion, s: nat, bottom: nat, w: int, h: int, ghost offs: seq<int>) returns (lix: nat)
    requires Cut(hr, offs) && s < hr.nsubregions && IsCell(w, h, CellOf(hr.rect, offs, s), hr.layers)
    requires IsBottom(hr.layers, CellOf(hr.rect, offs, s), bottom) && !IsImage(hr.layers[bottom])
    requires Count(hr.layers, CellOf(hr.rect, offs, s), bottom) > 1
    ensures bottom < lix && Covers(hr.layers, lix, CellOf(hr.rect, offs, s)) && IsImage(hr.layers[lix])
    ensures Count(hr.layers, CellOf(hr.rect, offs, s), lix) == Count(hr.layers, CellOf(hr.rect, offs, s), bottom) - 1
    ensures Bare(w, h, CellOf(hr.rect, offs, s), hr.layers, lix)
  {
    ghost var cell := CellOf(hr.rect, offs, s);
    var n := GetLayerOpsNext(hr, s, bottom, offs);
    NextCounts(hr.layers, cell, bottom, n);
    AboveBottomBlended(hr.layers, cell, bottom, n);
    AboveHoleBare(w, h, cell, hr.layers, bottom, n);
    lix := n;
  }

  /** A batch that `e` may end or go on. */
  ghost predicate Unclosed(seg: seq<Entry>, e: Entry) {
    && seg != [] && seg[|seg| - 1] == e && Opens(e.batch) && Queued(seg)
    && (e.batch == Begin <==> |seg| == 1)
  }

  /** A batch under construction: `seg` so far, its last command `e` drawing layer `lix`. */
  ghost predicate BatchOpen(w: int, h: int, cell: Rect, layers: seq<RgzLayer>, lix: int, e: Entry,
                            seg: seq<Entry>, first: set<Change>, scaled: bool, nv12: bool) {
    && Covers(layers, lix, cell) && CellCommand(w, h, cell, layers[lix].hwc, e)
    && Unclosed(seg, e) && scaled == Scaled(layers[lix].hwc) && nv12 == IsNV12(layers[lix].hwc.handle.format)
    && ((e.blend && e.src2 == Target(e.dstRect)) || ({Src2, Src2Rect} <= first && (e.blend || Op in first)))
  }

  lemma BatchBegins(w: int, h: int, cell: Rect, layers: seq<RgzLayer>, lix: int, e: Entry, first: set<Change>)
    requires Covers(layers, lix, cell) && CellCommand(w, h, cell, layers[lix].hwc, e)
    requires e.async && {Src2, Src2Rect} <= first && (e.blend || Op in first)
    requires SafeHandles(layers) && Drawn(w, h, [e], cell, layers, lix + 1)
    ensures var b := e.(batch := Begin);
            && BatchOpen(w, h, cell, layers, lix, b, [b], first, Scaled(layers[lix].hwc),
                         IsNV12(layers[lix].hwc.handle.format))
            && Drawn(w, h, [b], cell, layers, lix + 1)
  {
    SameDrawn(w, h, [e], [e.(batch := Begin)], cell, layers, lix + 1);
  }

  lemma BatchGrows(w: int, h: int, cell: Rect, layers: seq<RgzLayer>, lix: int, e: Entry,
                   seg: seq<Entry>, first: set<Change>, scaled: bool, nv12: bool, next: int, e': Entry)
    requires BatchOpen(w, h, cell, layers, lix, e, seg, first, scaled, nv12)
    requires Covers(layers, next, cell) && layers[next].hwc.handle.Native?
    requires e' == BlendEntry(w, h, cell, layers[next].hwc).(batch := Continue, changes := ChangesFor(first,
                     scaled || Scaled(layers[next].hwc), nv12 || IsNV12(layers[next].hwc.handle.format)))
    ensures BatchOpen(w, h, cell, layers, next, e', seg + [e'], {}, Scaled(layers[next].hwc),
                      IsNV12(layers[next].hwc.handle.format))
  {
    ChangesSuffice(w, h, cell, layers[lix].hwc, layers[next].hwc, e, e', first);
    ExtendsBatch(seg, e');
  }

  /** The blend branch: at least two layers, from `first` up, drawn as one batch. */
  method EmitBatch(hr: HRegion, s: nat, first: nat, bottom: nat, w: int, h: int, blts: BltList,
                   ghost offs: seq<int>)
    requires Cut(hr, offs) && s < hr.nsubregions && blts.Valid()
    requires IsCell(w, h, CellOf(hr.rect, offs, s), hr.layers)
    requires IsBottom(hr.layers, CellOf(hr.rect, offs, s), bottom) && bottom <= first
    requires Covers(hr.layers, first, CellOf(hr.rect, offs, s)) && IsImage(hr.layers[first])
    requires Count(hr.layers, CellOf(hr.rect, offs, s), first) > 1
    requires Bare(w, h, CellOf(hr.rect, offs, s), hr.layers, first)
    modifies blts
    ensures blts.Valid() && old(blts.asked) <= blts.asked
    ensures Queued(blts.asked[|old(blts.asked)|..]) && Closed(blts.asked[|old(blts.asked)|..])
    ensures |blts.asked| <= |old(blts.asked)| + |hr.layers|
    ensures Drawn(w, h, blts.asked[|old(blts.asked)|..], CellOf(hr.rect, offs, s), hr.layers, |hr.layers|)
  {
    ghost var before := blts.asked;
    var rect := hr.blitrects[first][s];
    var lix, e, changes, scaled, nv12 := BeginBatch(hr, s, first, bottom, rect, w, h, blts, offs);
    ghost var seg;
    lix, e, seg := RestOfBatch(hr, s, bottom, lix, rect, w, h, blts, e, changes, scaled, nv12, offs, before);
    CloseBatch(blts, e, seg, before);
    DrawnAll(w, h, rect, hr.layers, lix, seg);
    SameDrawn(w, h, seg, blts.asked[|before|..], rect, hr.layers, |hr.layers|);
  }

  /** The layers above the first command, blended one by one; the last one is returned. */
  method RestOfBatch(hr: HRegion, s: nat, bottom: nat, lix0: int, rect: Rect, w: int, h: int, blts: BltList,
                     e0: Entry, first0: set<Change>, scaled0: bool, nv12_0: bool,
                     ghost offs: seq<int>, ghost before: seq<Entry>)
    returns (lix: int, e: Entry, ghost seg: seq<Entry>)
    requires Cut(hr, offs) && s < hr.nsubregions && rect == CellOf(hr.rect, offs, s)
    requires IsCell(w, h, rect, hr.layers) && IsBottom(hr.layers, rect, bottom) && bottom <= lix0
    requires BatchOpen(w, h, rect, hr.layers, lix0, e0, [e0], first0, scaled0, nv12_0)
    requires blts.Valid() && blts.asked == before + [e0] && Drawn(w, h, [e0], rect, hr.layers, lix0 + 1)
    modifies blts
    ensures blts.Valid() && blts.asked == before + seg
    ensures 0 <= lix < |hr.layers| && IsNext(hr.layers, rect, lix, -1)
    ensures Unclosed(seg, e)
    ensures Drawn(w, h, seg, rect, hr.layers, lix + 1) && |seg| <= lix - lix0 + 1
  {
    lix, e, seg := lix0, e0, [e0];
    var firstChanges, prevScaled, prevNV12 := first0, scaled0, nv12_0;
    var next := GetLayerOpsNext(hr, s, lix, offs);
    while next != -1
      invariant bottom <= lix && IsNext(hr.layers, rect, lix, next)
      invariant blts.Valid() && blts.asked == before + seg
      invariant BatchOpen(w, h, rect, hr.layers, lix, e, seg, firstChanges, prevScaled, prevNV12)
      invariant Drawn(w, h, seg, rect, hr.layers, lix + 1) && |seg| <= lix - lix0 + 1
      decreases |hr.layers| - lix
    {
      AboveBottomBlended(hr.layers, rect, bottom, next);
      e, prevScaled, prevNV12, seg := NextOfBatch(hr.layers, rect, lix, next, w, h, blts, e, firstChanges,
                                                  prevScaled, prevNV12, seg, before);
      lix := next;
      firstChanges := {};
      next := GetLayerOpsNext(hr, s, lix, offs);
    }
  }

  /** Ends the batch on the last command handed out. */
  method CloseBatch(blts: BltList, e: Entry, ghost seg: seq<Entry>, ghost before: seq<Entry>)
    requires blts.Valid() && blts.asked == before + seg
    requires Unclosed(seg, e)
    modifies blts
    ensures blts.Valid() && before <= blts.asked
    ensures Queued(blts.asked[|before|..]) && Closed(blts.asked[|before|..])
    ensures SameBlits(seg, blts.asked[|before|..])
  {
    var last := e.(batch := if e.batch == Begin then Single else End);
    blts.Amend(last);
    ClosesBatch(seg, last);
    assert blts.asked == before + (seg[..|seg| - 1] + [last]);
    assert blts.asked[|before|..] == seg[..|seg| - 1] + [last];
  }

  /** One more layer blended onto the framebuffer, declaring what may have changed. */
  method NextOfBatch(layers: seq<RgzLayer>, rect: Rect, lix: int, next: int, w: int, h: int, blts: BltList,
                     e: Entry, first: set<Change>, prevScaled: bool, prevNV12: bool,
                     ghost seg: seq<Entry>, ghost before: seq<Entry>)
    returns (e': Entry, scaled: bool, nv12: bool, ghost grown: seq<Entry>)
    requires IsCell(w, h, rect, layers) && blts.Valid() && blts.asked == before + seg
    requires BatchOpen(w, h, rect, layers, lix, e, seg, first, prevScaled, prevNV12)
    requires next != -1 && IsNext(layers, rect, lix, next)
    requires IsImage(layers[next]) && layers[next].hwc.blending == Premult
    requires Drawn(w, h, seg, rect, layers, lix + 1)
    modifies blts
    ensures blts.Valid() && blts.asked == before + grown && grown == seg + [e']
    ensures BatchOpen(w, h, rect, layers, next, e', grown, {}, scaled, nv12)
    ensures Drawn(w, h, grown, rect, layers, next + 1)
  {
    var plain := BlendEntry(w, h, rect, layers[next].hwc);
    blts.Get(plain);
    scaled := Scaled(layers[next].hwc);
    nv12 := IsNV12(layers[next].hwc.handle.format);
    var changes := GatherChanges(first, scaled, prevScaled, nv12, prevNV12);
    e' := plain.(batch := Continue, changes := changes);
    blts.Amend(e');
    BatchGrows(w, h, rect, layers, lix, e, seg, first, prevScaled, prevNV12, next, e');
    NextDrawn(w, h, rect, layers, lix, next, seg, e');
    grown := seg + [e'];
    OneMore(before, seg, e');
  }

  lemma OneMore(before: seq<Entry>, seg: seq<Entry>, e: Entry)
    ensures before + (seg + [e]) == (before + seg) + [e]
  {
  }

  /** What the next command declares as changed. */
  method GatherChanges(first: set<Change>, scaled: bool, prevScaled: bool, nv12: bool, prevNV12: bool)
    returns (changes: set<Change>)
    ensures changes == ChangesFor(first, prevScaled || scaled, prevNV12 || nv12)
  {
    changes := first + {Src1, Src1Rect};
    if scaled || prevScaled {
      changes := changes + {DstRect, Src2Rect, Scale};
    }
    if nv12 || prevNV12 {
      changes := changes + {Dst, DstRect, Src2, Src2Rect, ClipRect};
    }
  }

  /** The flags of a blend play no part in what it draws. */
  lemma NextDrawn(w: int, h: int, rect: Rect, layers: seq<RgzLayer>, lix: int, next: int, seg: seq<Entry>, e: Entry)
    requires IsCell(w, h, rect, layers) && 0 <= lix < |layers| && Drawn(w, h, seg, rect, layers, lix + 1)
    requires next != -1 && IsNext(layers, rect, lix, next)
    requires IsImage(layers[next]) && layers[next].hwc.blending == Premult
    requires SameBlit(BlendEntry(w, h, rect, layers[next].hwc), e)
    ensures Drawn(w, h, seg + [e], rect, layers, next + 1)
  {
    DrawBlend(w, h, rect, layers, lix, next, seg);
    SameDrawn(w, h, seg + [BlendEntry(w, h, rect, layers[next].hwc)], seg + [e], rect, layers, next + 1);
  }

  /** The first command of a batch: the two lowest layers together if possible, else a copy. */
  method BeginBatch(hr: HRegion, s: nat, first: nat, bottom: nat, rect: Rect, w: int, h: int, blts: BltList,
                    ghost offs: seq<int>)
    returns (lix: int, e: Entry, changes: set<Change>, scaled: bool, nv12: bool)
    requires Cut(hr, offs) && s < hr.nsubregions && rect == CellOf(hr.rect, offs, s) && blts.Valid()
    requires IsCell(w, h, rect, hr.layers) && IsBottom(hr.layers, rect, bottom) && bottom <= first
    requires Covers(hr.layers, first, rect) && IsImage(hr.layers[first])
    requires Count(hr.layers, rect, first) > 1
    requires Bare(w, h, rect, hr.layers, first)
    modifies blts
    ensures blts.Valid() && blts.asked == old(blts.asked) + [e]
    ensures first <= lix && BatchOpen(w, h, rect, hr.layers, lix, e, [e], changes, scaled, nv12)
    ensures Drawn(w, h, [e], rect, hr.layers, lix + 1)
  {
    lix, e, changes, scaled, nv12 := FirstCommand(hr, s, first, bottom, rect, w, h, offs);
    blts.Get(e);
    changes := changes + {Src2, Src2Rect};
    BatchBegins(w, h, rect, hr.layers, lix, e, changes);
    e := e.(batch := Begin);
    blts.Amend(e);
  }

  /** Neither scaled nor a video: it can share a command with another such layer. */
  predicate Plain(l: Layer) {
    l.handle.Native? && !Scaled(l) && l.handle.format != NV12 && l.handle.format != NV12Padded
  }

  /** The command itself, and the layer up to which it draws. */
  method FirstCommand(hr: HRegion, s: nat, first: nat, bottom: nat, rect: Rect, w: int, h: int,
                      ghost offs: seq<int>)
    returns (lix: int, e: Entry, changes: set<Change>, scaled: bool, nv12: bool)
    requires Cut(hr, offs) && s < hr.nsubregions && rect == CellOf(hr.rect, offs, s)
    requires IsCell(w, h, rect, hr.layers) && IsBottom(hr.layers, rect, bottom) && bottom <= first
    requires Covers(hr.layers, first, rect) && IsImage(hr.layers[first])
    requires Count(hr.layers, rect, first) > 1
    requires Bare(w, h, rect, hr.layers, first)
    ensures first <= lix && Covers(hr.layers, lix, rect) && CellCommand(w, h, rect, hr.layers[lix].hwc, e)
    ensures e.async && (e.blend || Op in changes)
    ensures scaled == Scaled(hr.layers[lix].hwc) && nv12 == IsNV12(hr.layers[lix].hwc.handle.format)
    ensures Drawn(w, h, [e], rect, hr.layers, lix + 1)
    ensures exists n :: IsNext(hr.layers, rect, first, n) && n > first
              && lix == if Plain(hr.layers[n].hwc) && Plain(hr.layers[first].hwc) then n else first
  {
    var layers := hr.layers;
    lix := GetLayerOpsNext(hr, s, first, offs);
    NextCounts(layers, rect, first, lix);
    AboveBottomBlended(layers, rect, bottom, lix);
    changes, scaled, nv12 := {}, false, false;
    if CanBlendTogether(layers[lix].hwc, layers[first].hwc) {
      e := BlendPairEntry(w, h, rect, layers[lix].hwc, layers[first].hwc);
      DrawPair(w, h, rect, layers, first, lix);
    } else {
      lix := first;
      e := CopyEntry(w, h, rect, layers[lix].hwc);
      changes := {Op};
      nv12 := IsNV12(layers[lix].hwc.handle.format);
      scaled := Scaled(layers[lix].hwc);
      DrawCopy(w, h, rect, layers, lix);
    }
  }

  lemma ExtendsBatch(es: seq<Entry>, e: Entry)
    requires es != [] && Queued(es) && Linked(es[|es| - 1], e) && e.async
    ensures Queued(es + [e])
  {
    var c := es + [e];
    forall i | 0 <= i < |c| - 1 ensures Linked(c[i], c[i + 1]) {
      if i < |es| - 1 {
        assert Linked(es[i], es[i + 1]);
      }
    }
  }

  /** The last command of an open batch closes it, or stands alone when it also began it. */
  lemma ClosesBatch(es: seq<Entry>, e: Entry)
    requires es != [] && Queued(es) && Opens(es[|es| - 1].batch)
    requires es[|es| - 1].batch == Begin <==> |es| == 1
    requires e == es[|es| - 1].(batch := if |es| == 1 then Single else End)
    ensures Queued(es[..|es| - 1] + [e]) && Closed(es[..|es| - 1] + [e])
  {
    var c := es[..|es| - 1] + [e];
    forall i | 0 <= i < |c| - 1 ensures Linked(c[i], c[i + 1]) {
      assert Linked(es[i], es[i + 1]);
    }
  }
}
