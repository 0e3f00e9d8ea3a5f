/** The regionizer object: stored frames, dirty tracking, regions, and the two output modes. */
module Regionizer {
  import opened Geometry
  import opened SortUnique
  import opened Pixels
  import opened Layers
  import opened Blits
  import opened Painter
  import opened Stacks
  import opened BlitList
  import opened DirtyTracking
  import opened Cells
  import opened Output
  import opened Regions
  import opened Progress

  /** RGZ_INPUT_MAXLAYERS. */
  const INPUT_MAXLAYERS := 11

  /** So many layers, the background included, never use up the blit slots. */
  const FEW_LAYERS := 5

  datatype Composition = FrameBuffer | Overlay | OtherComposition

  /** A layer of the composition list, with the identity the extension call supplies. */
  datatype HwcLayer = HwcLayer(composition: Composition, skip: bool, clearFb: bool, layer: Layer,
                               identity: int)

  /** `rgz_in_valid_hwc_layer`. */
  predicate ValidInput(l: HwcLayer) {
    if l.skip || !l.layer.handle.Native? then false
    else if IsNV12(l.layer.handle.format) then l.layer.handle.format == NV12
    else !Mirrored(l.layer.transform) && l.layer.handle.format != OtherFormat
  }

  /** The clear hint is only given to layers without blending (hwc.c:1686). */
  ghost predicate HintsUnblended(list: seq<HwcLayer>) {
    forall i :: 0 <= i < |list| && list[i].composition != FrameBuffer && list[i].clearFb ==>
      list[i].layer.blending != Premult
  }

  predicate Candidate(l: HwcLayer) { l.composition == FrameBuffer || l.clearFb }

  function Overlays(list: seq<HwcLayer>, k: nat): nat
    requires k <= |list|
  {
    if k == 0 then 0 else Overlays(list, k - 1) + if list[k - 1].composition == Overlay then 1 else 0
  }

  /** The framebuffer layers below `k`, which get buffer indexes after those of the overlays. */
  function Images(list: seq<HwcLayer>, k: nat): nat
    requires k <= |list|
  {
    if k == 0 then 0 else Images(list, k - 1) + if list[k - 1].composition == FrameBuffer then 1 else 0
  }

  function Background(w: int, h: int): RgzLayer {
    RgzLayer(Layer(Dummy, Transform(false, false, false), NoBlend, ZERO_RECT, Screen(w, h)),
             0, BACKGROUND_BUFFIDX, 0)
  }

  /** How layer `k` of the list is stored. */
  function StoredLayer(list: seq<HwcLayer>, k: nat): RgzLayer
    requires k < |list|
  {
    var l := list[k];
    if l.composition == FrameBuffer
    then RgzLayer(l.layer, l.identity, Overlays(list, |list|) + Images(list, k), 0)
    else RgzLayer(l.layer.(handle := Dummy), l.identity, CLEARHINT_BUFFIDX, 0)
  }

  /** The frame a composition list stands for: the background, then its candidates. */
  function FrameOf(w: int, h: int, list: seq<HwcLayer>, k: nat): seq<RgzLayer>
    requires k <= |list|
  {
    if k == 0 then [Background(w, h)]
    else FrameOf(w, h, list, k - 1) + if Candidate(list[k - 1]) then [StoredLayer(list, k - 1)] else []
  }

  /** Every framebuffer layer below `k` can be blitted. */
  predicate AllValid(list: seq<HwcLayer>, k: nat)
    requires k <= |list|
  {
    forall i :: 0 <= i < k && list[i].composition == FrameBuffer ==> ValidInput(list[i])
  }

  /** The buffers the blitter must hold on to. */
  function ImageHandles(s: seq<RgzLayer>, k: nat): seq<Handle>
    requires k <= |s|
  {
    if k <= 1 then []
    else ImageHandles(s, k - 1) + if IsClearHint(s[k - 1]) then [] else [s[k - 1].hwc.handle]
  }

  /** Every candidate is stored in its turn: its identity and geometry, and its buffer if it is to be blitted. */
  lemma {:induction false} CandidateStored(w: int, h: int, list: seq<HwcLayer>, i: nat, k: nat)
    requires i < k <= |list| && Candidate(list[i])
    ensures var (f, j) := (FrameOf(w, h, list, k), |FrameOf(w, h, list, i)|);
            && 1 <= j < |f| && f[j].identity == list[i].identity
            && f[j].hwc == list[i].layer.(handle := f[j].hwc.handle)
            && (IsImage(f[j]) <==> list[i].composition == FrameBuffer)
            && (if IsImage(f[j]) then f[j].hwc.handle == list[i].layer.handle else IsClearHint(f[j]))
  {
    FrameNotEmpty(w, h, list, i);
    if i < k - 1 {
      CandidateStored(w, h, list, i, k - 1);
    }
  }

  lemma {:induction false} FrameNotEmpty(w: int, h: int, list: seq<HwcLayer>, k: nat)
    requires k <= |list|
    ensures |FrameOf(w, h, list, k)| >= 1
  {
    if k > 0 {
      FrameNotEmpty(w, h, list, k - 1);
    }
  }

  /** The formats that the blitter reads. */
  const BLIT_FORMATS := {BGRA8888, BGRX8888, RGBA8888, RGBX8888, RGB565, NV12}

  /** What a layer must be to be blitted: not to be skipped, in such a format, and mirrored only as a video. */
  lemma ValidExactly(l: HwcLayer)
    ensures ValidInput(l)
            <==> && !l.skip && l.layer.handle.Native? && l.layer.handle.format in BLIT_FORMATS
                 && (l.layer.transform.flipH == l.layer.transform.flipV || l.layer.handle.format == NV12)
  {
  }

  // ----- Buffers by their index -----

  /** The images of a frame are numbered in order, after the first `n` buffers. */
  predicate Indexed(s: seq<RgzLayer>, n: nat) {
    forall j {:trigger s[j].buffidx} :: 1 <= j < |s| && IsImage(s[j]) ==> s[j].buffidx == n + |ImageHandles(s, j)|
  }

  /** The index of every image leads to its buffer. */
  predicate Finds(buffers: seq<Handle>, s: seq<RgzLayer>) {
    forall j {:trigger s[j].buffidx} :: 1 <= j < |s| && IsImage(s[j]) ==>
      0 <= s[j].buffidx < |buffers| && buffers[s[j].buffidx] == s[j].hwc.handle
  }

  /** In the buffers that are posted, those of the overlays come first. */
  ghost predicate Posts(s: seq<RgzLayer>, hndls: seq<Handle>) {
    && (s != [] ==> |hndls| < |s|) && (hndls == [] ==> forall j :: 1 <= j < |s| ==> !IsImage(s[j]))
    && forall overlays: seq<Handle> {:trigger overlays + hndls} ::
      Indexed(s, |overlays|) ==> Finds(overlays + hndls, s)
  }

  lemma {:induction false} HandleAt(s: seq<RgzLayer>, j: nat, k: nat)
    requires 1 <= j < k <= |s| && IsImage(s[j])
    ensures |ImageHandles(s, j)| < |ImageHandles(s, k)|
    ensures ImageHandles(s, k)[|ImageHandles(s, j)|] == s[j].hwc.handle
  {
    if j < k - 1 {
      HandleAt(s, j, k - 1);
    }
  }

  lemma {:induction false} HandlesBounded(s: seq<RgzLayer>, k: nat)
    requires k <= |s|
    ensures |ImageHandles(s, k)| <= if k == 0 then 0 else k - 1
  {
    if k > 0 {
      HandlesBounded(s, k - 1);
    }
  }

  lemma HandlesPosted(s: seq<RgzLayer>)
    ensures Posts(s, ImageHandles(s, |s|))
  {
    HandlesBounded(s, |s|);
    forall j | 1 <= j < |s| && IsImage(s[j]) ensures ImageHandles(s, |s|) != [] {
      HandleAt(s, j, |s|);
    }
    forall overlays: seq<Handle> | Indexed(s, |overlays|) ensures Finds(overlays + ImageHandles(s, |s|), s) {
      forall j | 1 <= j < |s| && IsImage(s[j])
        ensures 0 <= s[j].buffidx < |overlays + ImageHandles(s, |s|)|
        ensures (overlays + ImageHandles(s, |s|))[s[j].buffidx] == s[j].hwc.handle
      {
        HandleAt(s, j, |s|);
      }
    }
  }

  lemma {:induction false} HandlesGrow(s: seq<RgzLayer>, t: seq<RgzLayer>, k: nat)
    requires k <= |s| <= |t| && forall i :: 0 <= i < k ==> t[i] == s[i].(dirty := t[i].dirty)
    ensures ImageHandles(t, k) == ImageHandles(s, k)
  {
    if k > 1 {
      HandlesGrow(s, t, k - 1);
    }
  }

  /** The indexes `rgz_in_hwccheck` gives out: overlays first, then the framebuffer layers in order. */
  lemma {:induction false} FrameIndexed(w: int, h: int, list: seq<HwcLayer>, k: nat)
    requires k <= |list|
    ensures var f := FrameOf(w, h, list, k);
            && f != [] && Indexed(f, Overlays(list, |list|)) && |ImageHandles(f, |f|)| == Images(list, k)
  {
    if k > 0 {
      var (f, g) := (FrameOf(w, h, list, k - 1), FrameOf(w, h, list, k));
      FrameIndexed(w, h, list, k - 1);
      forall j | 1 <= j < |g| && IsImage(g[j]) ensures g[j].buffidx == Overlays(list, |list|) + |ImageHandles(g, j)| {
        HandlesGrow(f, g, if j < |f| then j else |f|);
      }
      HandlesGrow(f, g, |f|);
      if Candidate(list[k - 1]) {
        assert g[|f|] == StoredLayer(list, k - 1);
        assert ImageHandles(g, |g|)
            == ImageHandles(g, |f|) + if IsClearHint(g[|f|]) then [] else [g[|f|].hwc.handle];
      } else {
        assert g == f;
      }
    }
  }

  lemma TrackedIndexed(prev: seq<RgzLayer>, target: seq<RgzLayer>, raw: seq<RgzLayer>, out: seq<RgzLayer>, n: nat)
    requires Tracked(prev, target, raw, out) && Indexed(raw, n)
    ensures Indexed(out, n)
  {
    forall j | 1 <= j < |out| && IsImage(out[j]) ensures out[j].buffidx == n + |ImageHandles(out, j)| {
      HandlesGrow(raw, out, j);
      assert raw[j].buffidx == n + |ImageHandles(raw, j)|;
    }
  }

  /** Whatever was on the screen, `es` leaves the painter's composition. */
  ghost predicate Repainted(w: int, h: int, es: seq<Entry>, cur: seq<RgzLayer>, k: nat)
    requires SafeHandles(cur) && k <= |cur|
  {
    forall tx, x, y, p :: OnScreen(w, h, x, y) ==>
      Exec(tx, w, h, es, x, y, p) == Compose(tx, w, h, Whole, cur, k, x, y)
  }

  lemma {:induction false} FrameOfState(w: int, h: int, list: seq<HwcLayer>, k: nat)
    requires k <= |list| && AllValid(list, k) && HintsUnblended(list)
    ensures FrameState(w, h, FrameOf(w, h, list, k)) && |FrameOf(w, h, list, k)| <= k + 1
    ensures AllBlittable(FrameOf(w, h, list, k))
  {
    if k > 0 {
      FrameOfState(w, h, list, k - 1);
    }
  }

  /** The cells of a region, up to the `s`-th, are up to date, and each of them has a layer. */
  ghost predicate DrawnTo(w: int, h: int, asked: seq<Entry>, layers: seq<RgzLayer>, damage: Rect, top: int, bottom: int,
                          hr: HRegion, offs: seq<int>, s: nat)
    requires SafeHandles(layers) && s < |offs| == hr.nsubregions + 1
  {
    && Queued(asked) && Closed(asked) && Drawing(w, h, asked, layers, damage, top, bottom, offs[s])
    && AllFilled(hr, offs, s)
  }

  class Rgz {
    /** Screen size; the background layer has the same size. */
    const w: int
    const h: int
    var init: bool
    var regionData: bool
    var hregions: seq<HRegion>
    var cur: seq<RgzLayer>
    var fbIdx: nat
    var fbStates: seq<seq<RgzLayer>>
    var damaged: Rect
    /** The cuts behind `hregions`. */
    ghost var ycuts: seq<int>
    ghost var xcuts: seq<seq<int>>

    /** The stored frame before the coming one, and the one its target framebuffer holds. */
    ghost function Previous(): seq<RgzLayer>
      reads this
      requires |fbStates| == 2 && fbIdx < 2
    {
      fbStates[fbIdx]
    }

    ghost function Target(): seq<RgzLayer>
      reads this
      requires |fbStates| == 2 && fbIdx < 2
    {
      fbStates[1 - fbIdx]
    }

    ghost predicate Valid()
      reads this
    {
      && w > 0 && h > 0 && |fbStates| == 2 && fbIdx < 2
      && Stored(w, h, Previous()) && Stored(w, h, Target())
      && AgeSound(Previous(), Target())
    }

    /** The current frame has been accepted, tracked and stored. */
    ghost predicate Accepted()
      reads this
    {
      && Valid() && init && FrameState(w, h, cur) && cur == Previous() && OnScreenDamage(damaged, w, h)
      && AllBlittable(cur) && |cur| <= INPUT_MAXLAYERS + 1
    }

    /** The regions belong to the current frame. */
    ghost predicate Regionized()
      reads this
    {
      Accepted() && regionData && RegionsOk(hregions, ycuts, xcuts, cur, damaged, w, h)
    }

    constructor (w: int, h: int)
      requires w > 0 && h > 0
      ensures Valid() && Previous() == [] && Target() == [] && this.w == w && this.h == h
    {
      this.w, this.h := w, h;
      init, regionData, hregions, cur, fbIdx := false, false, [], [], 0;
      fbStates, damaged, ycuts, xcuts := [[], []], ZERO_RECT, [], [];
    }

    /** `rgz_release`: everything is zeroed. */
    method Release()
      requires Valid()
      modifies this
      ensures Valid() && Previous() == [] && Target() == [] && !regionData && !init
    {
      init, regionData, hregions, cur, fbIdx := false, false, [], [], 0;
      fbStates, damaged, ycuts, xcuts := [[], []], ZERO_RECT, [], [];
    }

    /** `rgz_find_layer`. */
    static method FindLayer(layers: seq<RgzLayer>, identity: int) returns (r: int)
      ensures r == IndexOf(layers, identity)
    {
      for i := 0 to |layers|
        invariant forall k :: 0 <= k < i ==> IsBackground(layers[k]) || layers[k].identity != identity
      {
        if layers[i].buffidx == BACKGROUND_BUFFIDX { continue; }
        if layers[i].identity == identity { return i; }
      }
      r := -1;
    }

    /** `rgz_handle_dirty_region`: dirty counts for the current frame, and the damaged area. */
    method HandleDirtyRegion(prev: seq<RgzLayer>, target: seq<RgzLayer>)
      requires Stored(w, h, prev) && Stored(w, h, target) && FrameState(w, h, cur)
      modifies `cur, `damaged
      ensures Tracked(prev, target, old(cur), cur)
      ensures damaged == Damage(w, h, prev, target, old(cur))
    {
      damaged := ZERO_RECT;
      ghost var raw := cur;
      for i := 0 to |cur|
        invariant |cur| == |raw|
        invariant forall k :: 0 <= k < |raw| ==>
          cur[k] == if k < i then raw[k].(dirty := DirtyCount(prev, target, raw[k], k)) else raw[k]
        invariant damaged == AddAll(w, h, ZERO_RECT, DamagedFrames(prev, target, raw, i))
      {
        AddAllConcat(w, h, ZERO_RECT, DamagedFrames(prev, target, raw, i), DamagedBy(prev, target, raw[i], i));
        TrackLayer(prev, target, i);
      }
      AddAllConcat(w, h, ZERO_RECT, DamagedFrames(prev, target, raw, |raw|), LostFrames(target, raw, |target|));
      SameLost(prev, target, raw, cur, |target|);
      AddLostLayers(target);
    }

    /** The body of the first loop of `rgz_handle_dirty_region`. */
    method TrackLayer(prev: seq<RgzLayer>, target: seq<RgzLayer>, i: nat)
      requires i < |cur|
      modifies `cur, `damaged
      ensures cur == old(cur)[i := old(cur[i]).(dirty := DirtyCount(prev, target, old(cur[i]), i))]
      ensures damaged == AddAll(w, h, old(damaged), DamagedBy(prev, target, old(cur[i]), i))
    {
      var l := cur[i];
      var p := -1;
      if i == 0 {
        if |prev| > 0 { p := 0; }
      } else {
        p := FindLayer(prev, l.identity);
      }
      var count := NUM_FB;
      if p != -1 && SameContent(l, prev[p]) {
        count := prev[p].dirty;
        count := count - if count > 0 then 1 else 0;
      }
      cur := cur[i := l.(dirty := count)];
      if p == -1 {
        Damaged(l.hwc.frame);
        return;
      }
      if i == 0 { return; }
      var t := FindLayer(target, l.identity);
      if t != -1 {
        if FrameMoved(l, target[t]) {
          AddTwo(w, h, damaged, l.hwc.frame, target[t].hwc.frame);
          Damaged(l.hwc.frame);
          Damaged(target[t].hwc.frame);
          cur := cur[i := l.(dirty := NUM_FB)];
        }
      } else {
        Damaged(l.hwc.frame);
      }
    }

    /** The second loop: layers of the target frame that are gone. */
    method AddLostLayers(target: seq<RgzLayer>)
      modifies `damaged
      ensures damaged == AddAll(w, h, old(damaged), LostFrames(target, cur, |target|))
    {
      var i := 1;
      while i < |target|
        invariant 1 <= i && damaged == AddAll(w, h, old(damaged), LostFrames(target, cur, Min(i, |target|)))
      {
        var j := FindLayer(cur, target[i].identity);
        if j == -1 {
          AddAllConcat(w, h, old(damaged), LostFrames(target, cur, i), [target[i].hwc.frame]);
          Damaged(target[i].hwc.frame);
        } else {
          assert LostFrames(target, cur, i + 1) == LostFrames(target, cur, i);
        }
        i := i + 1;
      }
    }

    /** `rgz_add_to_damaged_area`. */
    method Damaged(frame: Rect)
      modifies `damaged
      ensures damaged == AddDamage(w, h, old(damaged), frame)
      ensures damaged == AddAll(w, h, old(damaged), [frame])
    {
      damaged := AddDamage(w, h, damaged, frame);
      AddOne(w, h, old(damaged), frame);
    }

    /**
      `rgz_in_hwccheck`: accepts the list if it has blit candidates, not too many, and all of them
      can be blitted; then tracks the frame and stores it as the state of the next framebuffer.
     */
    method InHwcCheck(list: seq<HwcLayer>) returns (ok: bool)
      requires Valid() && HintsUnblended(list)
      modifies this
      ensures Valid()
      ensures ok <==> AllValid(list, |list|) && 1 < |FrameOf(w, h, list, |list|)| <= INPUT_MAXLAYERS + 1
      ensures ok ==>
        && Accepted() && Target() == old(Previous())
        && Tracked(old(Previous()), old(Target()), FrameOf(w, h, list, |list|), cur)
        && damaged == Damage(w, h, old(Previous()), old(Target()), FrameOf(w, h, list, |list|))
        && Indexed(cur, Overlays(list, |list|))
      ensures !ok ==> !init && Previous() == old(Previous()) && Target() == old(Target())
    {
      init := false;
      var built;
      ok, built := BuildFrame(list);
      if !ok { return; }
      FrameOfState(w, h, list, |list|);
      StoreFrame(built);
      FrameIndexed(w, h, list, |list|);
      TrackedIndexed(old(Previous()), old(Target()), built, cur, Overlays(list, |list|));
    }

    /** The end of `rgz_in_hwccheck`: an accepted frame is tracked and stored. */
    method StoreFrame(built: seq<RgzLayer>)
      requires Valid() && FrameState(w, h, built) && AllBlittable(built) && |built| <= INPUT_MAXLAYERS + 1
      modifies `init, `cur, `fbIdx, `fbStates, `damaged
      ensures Accepted() && Target() == old(Previous())
      ensures Tracked(old(Previous()), old(Target()), built, cur)
      ensures damaged == Damage(w, h, old(Previous()), old(Target()), built)
    {
      init := true;
      cur := built;
      var prev := fbStates[fbIdx];
      fbIdx := (fbIdx + 1) % 2;
      var target := fbStates[fbIdx];
      assert prev == old(Previous()) && target == old(Target());
      HandleDirtyRegion(prev, target);
      ghost var out := cur;
      DamageOnScreen(w, h, DamagedFrames(prev, target, built, |built|) + LostFrames(target, built, |target|));
      TrackedState(w, h, prev, target, built, out);
      fbStates := fbStates[fbIdx := cur];
      assert Previous() == out && Target() == prev;
    }

    /** The collection loops of `rgz_in_hwccheck`. */
    method BuildFrame(list: seq<HwcLayer>) returns (ok: bool, built: seq<RgzLayer>)
      ensures ok <==> AllValid(list, |list|) && 1 < |FrameOf(w, h, list, |list|)| <= INPUT_MAXLAYERS + 1
      ensures ok ==> built == FrameOf(w, h, list, |list|)
    {
      var memidx := 0;
      for l := 0 to |list|
        invariant memidx == Overlays(list, l)
      {
        if list[l].composition == Overlay { memidx := memidx + 1; }
      }
      var possible, candidates := 0, 0;
      built := [Background(w, h)];
      for l := 0 to |list|
        invariant candidates == |FrameOf(w, h, list, l)| - 1
        invariant 0 <= possible <= candidates && |built| == possible + 1
        invariant possible == candidates <==> AllValid(list, l) && candidates <= INPUT_MAXLAYERS
        invariant possible == candidates ==>
          built == FrameOf(w, h, list, l) && memidx == Overlays(list, |list|) + Images(list, l)
      {
        if list[l].composition == FrameBuffer {
          candidates := candidates + 1;
          if ValidInput(list[l]) && possible < INPUT_MAXLAYERS {
            built := built + [RgzLayer(list[l].layer, list[l].identity, memidx, 0)];
            memidx := memidx + 1;
            possible := possible + 1;
          }
          continue;
        }
        if list[l].clearFb {
          candidates := candidates + 1;
          if possible < INPUT_MAXLAYERS {
            built := built + [RgzLayer(list[l].layer.(handle := Dummy), list[l].identity, CLEARHINT_BUFFIDX, 0)];
            possible := possible + 1;
          }
        }
      }
      ok := possible != 0 && possible == candidates;
    }

    /** `rgz_in_hwc`: cuts the screen into regions; it fails only if the edges could overflow. */
    method InHwc() returns (ok: bool)
      requires Accepted()
      modifies `regionData, `hregions, `ycuts, `xcuts
      ensures ok <==> (|cur| + 1) * 2 <= SUBREGIONMAX
      ensures ok ==> Regionized()
      ensures Previous() == old(Previous()) && Target() == old(Target())
    {
      if (|cur| + 1) * 2 > SUBREGIONMAX {
        return false;
      }
      var yentries, ylen, dispw := YCuts(cur, damaged, w, h);
      regionData := true;
      hregions, ycuts, xcuts := BuildRegions(cur, damaged, w, yentries, ylen, dispw);
      ok := true;
    }

    /** The region loop of `rgz_in_hwc`. */
    static method BuildRegions(cur: seq<RgzLayer>, damaged: Rect, w: int, yentries: array<int>, ylen: nat, dispw: int)
      returns (regions: seq<HRegion>, ghost ys: seq<int>, ghost xs: seq<seq<int>>)
      requires 1 <= ylen <= yentries.Length && Increasing(yentries[..ylen])
      requires dispw >= w && (|cur| + 1) * 2 <= SUBREGIONMAX && ylen <= 2 + 2 * |cur|
      ensures ys == yentries[..ylen] && |regions| == |xs| == ylen - 1
      ensures forall i :: 0 <= i < ylen - 1 ==> RegionOk(regions[i], xs[i], cur, damaged, w, ys[i], ys[i + 1])
    {
      ys := yentries[..ylen];
      regions, xs := [], [];
      for i := 0 to ylen - 1
        invariant |regions| == |xs| == i
        invariant forall k :: 0 <= k < i ==> RegionOk(regions[k], xs[k], cur, damaged, w, ys[k], ys[k + 1])
      {
        var rect := Rect(0, yentries[i], if dispw > w then w else dispw, yentries[i + 1]);
        assert yentries[i] == ys[i] && yentries[i + 1] == ys[i + 1];
        var hr;
        ghost var offs;
        hr, offs := BuildRegion(cur, damaged, rect, w);
        regions := regions + [hr];
        xs := xs + [offs];
      }
    }

    /** One turn of the region loop: the layers that meet the region, and its cells. */
    static method BuildRegion(cur: seq<RgzLayer>, damaged: Rect, rect: Rect, w: int)
      returns (hr: HRegion, ghost offs: seq<int>)
      requires rect.left == 0 && rect.right == w && rect.top < rect.bottom && (|cur| + 1) * 2 <= SUBREGIONMAX
      ensures RegionOk(hr, offs, cur, damaged, w, rect.top, rect.bottom)
    {
      var layers := [];
      for j := 0 to |cur|
        invariant layers == Select(cur, j, rect)
      {
        if Intersects(rect, cur[j].hwc.frame) {
          layers := layers + [cur[j]];
        }
      }
      hr, offs := GenBlitRegions(rect, layers, damaged, w);
    }

    /** The edge collection of `rgz_in_hwc`; nothing is wider than the background. */
    static method YCuts(cur: seq<RgzLayer>, damaged: Rect, w: int, h: int)
      returns (yentries: array<int>, ylen: nat, dispw: int)
      requires cur != [] && cur[0].hwc.frame.right == w && (|cur| + 1) * 2 <= SUBREGIONMAX
      ensures fresh(yentries) && 1 <= ylen <= yentries.Length && ylen <= 2 + 2 * |cur| && dispw >= w
      ensures Increasing(yentries[..ylen])
      ensures SameValues(yentries[..ylen], YEdges(damaged, cur, h, |cur|))
    {
      yentries := new int[SUBREGIONMAX];
      yentries[0], yentries[1] := damaged.top, damaged.bottom;
      ylen := 2;
      dispw := damaged.right;
      for i := 0 to |cur|
        invariant ylen == 2 + 2 * i
        invariant yentries[..ylen] == YEdges(damaged, cur, h, i)
        invariant i > 0 ==> dispw >= w
      {
        var frame := cur[i].hwc.frame;
        ghost var before := yentries[..ylen];
        yentries[ylen] := Max(0, frame.top);
        ylen := ylen + 1;
        yentries[ylen] := Min(frame.bottom, h);
        ylen := ylen + 1;
        assert yentries[..ylen] == before + [yentries[ylen - 2], yentries[ylen - 1]];
        dispw := if dispw > frame.right then dispw else frame.right;
      }
      ylen := SortAndUnique(yentries, ylen);
    }

    // ----- Output -----

    /**
      `rgz_out_region` for blit commands. On success the list redraws exactly the pixels that need
      it. It fails exactly if some cell meets no layer or the blit slots run out.
     */
    method OutRegion(blts: BltList) returns (ok: bool, cmds: seq<Entry>, hndls: seq<Handle>)
      requires Regionized()
      modifies blts
      ensures blts.Valid()
      ensures ok <==> Gapless(hregions, xcuts, |hregions|) && |blts.asked| < MAX_BLITS
      ensures |cur| <= FEW_LAYERS ==> |blts.asked| < MAX_BLITS
      ensures ok ==> hndls == ImageHandles(cur, |cur|) && Posts(cur, hndls)
      ensures ok ==> Bracketed(cmds) && Closed(cmds) && Fenced(cmds)
      ensures ok ==> Rendered(w, h, cmds, cur, damaged)
    {
      blts.Init();
      cmds, hndls := [], [];
      ok := RowsOut(blts);
      if !ok { return; }
      hndls := CollectHandles();
      HandlesPosted(cur);
      ghost var asked := blts.asked;
      ok, cmds := Submit(blts);
      if ok { SameRendered(w, h, asked, cmds, cur, damaged); }
    }

    /** The loop of `rgz_out_region` over the regions. */
    method RowsOut(blts: BltList) returns (ok: bool)
      requires Regionized() && blts.Valid() && blts.asked == []
      modifies blts
      ensures blts.Valid()
      ensures ok <==> Gapless(hregions, xcuts, |hregions|)
      ensures |cur| <= FEW_LAYERS ==> |blts.asked| < MAX_BLITS
      ensures ok ==> Queued(blts.asked) && Closed(blts.asked) && Rendered(w, h, blts.asked, cur, damaged)
    {
      ghost var (rows, ys, xs) := (hregions, ycuts, xcuts);
      ghost var (layers, damage) := (cur, damaged);
      FirstRow(w, h, rows, ys, xs, layers, damage);
      for i := 0 to |hregions|
        invariant blts.Valid() && Queued(blts.asked) && Closed(blts.asked)
        invariant AtRow(w, h, blts.asked, layers, damage, ys, xs, i) && Gapless(rows, xs, i)
        invariant |layers| <= FEW_LAYERS ==> |blts.asked| <= 55 * i
      {
        ok := RowOut(i, blts);
        if !ok { return; }
      }
      LastRow(w, h, rows, ys, xs, layers, damage, blts.asked);
      ok := true;
    }

    /** One turn of the loop of `rgz_out_region`: the cells of region `i`. */
    method RowOut(i: nat, blts: BltList) returns (ok: bool)
      requires Regionized() && i < |hregions|
      requires blts.Valid() && Queued(blts.asked) && Closed(blts.asked)
      requires forall k :: 0 <= k < |xcuts| ==> |xcuts[k]| > 0
      requires AtRow(w, h, blts.asked, cur, damaged, ycuts, xcuts, i)
      modifies blts
      ensures blts.Valid()
      ensures if ok then NoGaps(hregions[i], xcuts[i]) else !Gapless(hregions, xcuts, |hregions|)
      ensures |cur| <= FEW_LAYERS ==> |blts.asked| <= |old(blts.asked)| + 55
      ensures ok ==> Queued(blts.asked) && Closed(blts.asked)
      ensures ok ==> AtRow(w, h, blts.asked, cur, damaged, ycuts, xcuts, i + 1)
    {
      if |hregions[i].layers| == 0 {
        GapFound(hregions, xcuts, i);
        return false;
      }
      ghost var (rows, ys, xs, layers, damage) := (hregions, ycuts, xcuts, cur, damaged);
      ok := CellsOut(i, blts);
      if ok { NextRow(w, h, rows, ys, xs, layers, damage, i, blts.asked); } else { GapFound(rows, xs, i); }
    }

    /** The inner loop: the cells of region `i`, one by one. */
    method CellsOut(i: nat, blts: BltList) returns (ok: bool)
      requires Regionized() && i < |hregions| && hregions[i].layers != [] && |xcuts[i]| > 0
      requires blts.Valid() && Queued(blts.asked) && Closed(blts.asked)
      requires Drawing(w, h, blts.asked, cur, damaged, ycuts[i], ycuts[i + 1], xcuts[i][0])
      modifies blts
      ensures blts.Valid()
      ensures ok <==> NoGaps(hregions[i], xcuts[i])
      ensures |cur| <= FEW_LAYERS ==> |blts.asked| <= |old(blts.asked)| + 55
      ensures ok ==> Queued(blts.asked) && Closed(blts.asked)
      ensures ok ==> Drawing(w, h, blts.asked, cur, damaged, ycuts[i], ycuts[i + 1], xcuts[i][|xcuts[i]| - 1])
    {
      var hr := hregions[i];
      ghost var (offs, top, bottom, layers, damage) := (xcuts[i], ycuts[i], ycuts[i + 1], cur, damaged);
      assert RegionOk(hr, offs, layers, damage, w, top, bottom);
      assert hr.nsubregions == |offs| - 1;
      for s := 0 to hr.nsubregions
        invariant blts.Valid() && DrawnTo(w, h, blts.asked, layers, damage, top, bottom, hr, offs, s)
        invariant |layers| <= FEW_LAYERS ==> |blts.asked| <= |old(blts.asked)| + FEW_LAYERS * s
      {
        ok := CellOut(i, s, blts);
        if !ok {
          CellGap(hr, offs, s);
          return;
        }
      }
      assert Drawing(w, h, blts.asked, layers, damage, top, bottom, offs[|offs| - 1]);
      ok := true;
    }

    /** The inner loop's body: cell `s` of region `i`. */
    method CellOut(i: nat, s: nat, blts: BltList) returns (ok: bool)
      requires Regionized() && i < |hregions| && s + 1 < |xcuts[i]| && hregions[i].layers != []
      requires RegionOk(hregions[i], xcuts[i], cur, damaged, w, ycuts[i], ycuts[i + 1])
      requires blts.Valid() && Queued(blts.asked) && Closed(blts.asked)
      requires Drawing(w, h, blts.asked, cur, damaged, ycuts[i], ycuts[i + 1], xcuts[i][s])
      modifies blts
      ensures blts.Valid() && |blts.asked| <= |old(blts.asked)| + |cur|
      ensures ok <==> Filled(hregions[i], xcuts[i], s)
      ensures ok ==> Queued(blts.asked) && Closed(blts.asked)
      ensures ok ==> Drawing(w, h, blts.asked, cur, damaged, ycuts[i], ycuts[i + 1], xcuts[i][s + 1])
    {
      var hr := hregions[i];
      ghost var offs := xcuts[i];
      ghost var before := blts.asked;
      RegionCells(w, h, hregions, ycuts, xcuts, cur, damaged, i, s);
      ok := SubregionBlit(hr, s, damaged, w, h, blts, offs);
      if !ok { return; }
      ghost var seg := blts.asked[|before|..];
      assert blts.asked == before + seg;
      QueuedConcat(before, seg);
      DrawingCell(w, h, before, seg, cur, damaged, hr, ycuts, i, offs, s);
    }

    /** The common tail of both outputs: the last command becomes the fence. */
    method Submit(blts: BltList) returns (ok: bool, cmds: seq<Entry>)
      requires blts.Valid() && Queued(blts.asked) && Closed(blts.asked)
      modifies blts
      ensures blts.Valid() && |blts.asked| == |old(blts.asked)|
      ensures ok <==> |blts.asked| < MAX_BLITS
      ensures ok ==> Bracketed(cmds) && Closed(cmds) && Fenced(cmds) && SameBlits(old(blts.asked), cmds)
    {
      ghost var asked := blts.asked;
      if |blts.bvcmds| > 0 {
        var last := blts.bvcmds[|blts.bvcmds| - 1].(async := false);
        blts.Amend(last);
        if |asked| < MAX_BLITS { FenceLast(asked, last); }
      }
      cmds := blts.bvcmds;
      ok := |cmds| < MAX_BLITS;
    }

    method CollectHandles() returns (hndls: seq<Handle>)
      ensures hndls == ImageHandles(cur, |cur|)
    {
      hndls := [];
      var j := 1;
      while j < |cur|
        invariant 1 <= j && hndls == ImageHandles(cur, Min(j, |cur|))
      {
        if cur[j].buffidx != CLEARHINT_BUFFIDX {
          hndls := hndls + [cur[j].hwc.handle];
        }
        j := j + 1;
      }
    }

    /** `rgz_out_bvcmd_paint`: clears the screen and paints layer by layer. */
    method OutPaint(blts: BltList) returns (ok: bool, cmds: seq<Entry>, hndls: seq<Handle>)
      requires Accepted()
      modifies blts
      ensures blts.Valid() && ok
      ensures hndls == ImageHandles(cur, |cur|) && Posts(cur, hndls)
      ensures Bracketed(cmds) && Closed(cmds) && Fenced(cmds)
      ensures Repainted(w, h, cmds, cur, |cur|)
    {
      blts.Init();
      blts.Get(ClearEntry(w, h, Screen(w, h)));
      ghost var frame := cur;
      PaintBackground(w, h, frame);
      for i := 1 to |cur|
        invariant blts.Valid() && |blts.asked| == i && Queued(blts.asked) && Closed(blts.asked)
        invariant Repainted(w, h, blts.asked, frame, i)
      {
        PaintLayer(i, blts);
      }
      hndls := CollectHandles();
      HandlesPosted(cur);
      ghost var asked := blts.asked;
      ok, cmds := Submit(blts);
      SameRepainted(w, h, asked, cmds, frame);
    }

    /** The loop's body: the command for layer `i`. */
    method PaintLayer(i: nat, blts: BltList)
      requires Accepted() && 1 <= i < |cur|
      requires blts.Valid() && |blts.asked| == i && Queued(blts.asked) && Closed(blts.asked)
      requires Repainted(w, h, blts.asked, cur, i)
      modifies blts
      ensures blts.Valid() && |blts.asked| == i + 1 && Queued(blts.asked) && Closed(blts.asked)
      ensures Repainted(w, h, blts.asked, cur, i + 1)
    {
      var l := cur[i];
      var e;
      if l.buffidx == CLEARHINT_BUFFIDX {
        e := ClearEntry(w, h, ClipTo(w, h, l.hwc.frame));
      } else if l.hwc.blending == Premult {
        e := BlendEntry(w, h, l.hwc.frame, l.hwc);
      } else {
        e := CopyEntry(w, h, l.hwc.frame, l.hwc);
      }
      PaintNext(w, h, cur, i, blts.asked, e);
      QueuedConcat(blts.asked, [e]);
      blts.Get(e);
    }
  }

  lemma PaintBackground(w: int, h: int, cur: seq<RgzLayer>)
    requires FrameState(w, h, cur)
    ensures Repainted(w, h, [ClearEntry(w, h, Screen(w, h))], cur, 1)
  {
    var e := ClearEntry(w, h, Screen(w, h));
    forall tx, x, y, p | OnScreen(w, h, x, y)
      ensures Exec(tx, w, h, [e], x, y, p) == Compose(tx, w, h, Whole, cur, 1, x, y)
    {
      ExecOne(tx, w, h, e, x, y, p);
      ClearStep(tx, w, h, Screen(w, h), x, y, p);
    }
  }

  lemma PaintNext(w: int, h: int, cur: seq<RgzLayer>, i: nat, es: seq<Entry>, e: Entry)
    requires FrameState(w, h, cur) && AllBlittable(cur) && 1 <= i < |cur|
    requires Repainted(w, h, es, cur, i)
    requires e == if IsClearHint(cur[i]) then ClearEntry(w, h, ClipTo(w, h, cur[i].hwc.frame))
                  else if cur[i].hwc.blending == Premult then BlendEntry(w, h, cur[i].hwc.frame, cur[i].hwc)
                  else CopyEntry(w, h, cur[i].hwc.frame, cur[i].hwc)
    ensures Repainted(w, h, es + [e], cur, i + 1)
  {
    var l := cur[i].hwc;
    forall tx, x, y, p | OnScreen(w, h, x, y)
      ensures Exec(tx, w, h, es + [e], x, y, p) == Compose(tx, w, h, Whole, cur, i + 1, x, y)
    {
      var q := Compose(tx, w, h, Whole, cur, i, x, y);
      ExecConcat(tx, w, h, es, [e], x, y, p);
      ExecOne(tx, w, h, e, x, y, q);
      if IsClearHint(cur[i]) {
        ClearStep(tx, w, h, ClipTo(w, h, l.frame), x, y, q);
      } else {
        WholeDrawable(l);
        PieceReadsLayer(w, h, l, l.frame, x, y);
      }
      if IsImage(cur[i]) && l.blending == Premult {
        BlendStep(tx, w, h, l.frame, l, x, y, q);
      } else if IsImage(cur[i]) {
        CopyStep(tx, w, h, l.frame, l, x, y, q);
      }
    }
  }

  lemma SameRepainted(w: int, h: int, a: seq<Entry>, b: seq<Entry>, cur: seq<RgzLayer>)
    requires SafeHandles(cur) && SameBlits(a, b) && Repainted(w, h, a, cur, |cur|)
    ensures Repainted(w, h, b, cur, |cur|)
  {
    forall tx, x, y, p | OnScreen(w, h, x, y)
      ensures Exec(tx, w, h, b, x, y, p) == Compose(tx, w, h, Whole, cur, |cur|, x, y)
    {
      SameBlitsExec(tx, w, h, a, b, x, y, p);
    }
  }

  /** A tracked frame is a frame, and its counts are sound ages. */
  lemma TrackedState(w: int, h: int, prev: seq<RgzLayer>, target: seq<RgzLayer>, cur: seq<RgzLayer>,
                     out: seq<RgzLayer>)
    requires Stored(w, h, prev) && FrameState(w, h, cur) && Tracked(prev, target, cur, out)
    ensures FrameState(w, h, out) && AgeSound(out, prev)
    ensures AllBlittable(cur) ==> AllBlittable(out)
  {
    TrackingKeepsAges(w, h, prev, target, cur, out);
  }

  lemma {:induction false} SameLost(prev: seq<RgzLayer>, target: seq<RgzLayer>, cur: seq<RgzLayer>,
                                    out: seq<RgzLayer>, k: nat)
    requires Tracked(prev, target, cur, out) && k <= |target|
    ensures LostFrames(target, out, k) == LostFrames(target, cur, k)
  {
    if k > 1 {
      SameLost(prev, target, cur, out, k - 1);
      assert IndexOf(out, target[k - 1].identity) == IndexOf(cur, target[k - 1].identity);
    }
  }

  lemma AddOne(w: int, h: int, d: Rect, f: Rect)
    ensures AddAll(w, h, d, [f]) == AddDamage(w, h, d, f)
  {
    assert [f][..0] == [];
  }

  lemma AddTwo(w: int, h: int, d: Rect, f: Rect, g: Rect)
    ensures AddAll(w, h, d, [f, g]) == AddDamage(w, h, AddDamage(w, h, d, f), g)
  {
    assert [f, g][..1] == [f];
    AddOne(w, h, d, f);
  }
}
