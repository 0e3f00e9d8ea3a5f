/**
  The overlay planner: which layers get a display pipe of their own, and which are composed into
  the framebuffer. Here as mathematics; `Device` is the code.
 */
module Planner {
  const MAX_HW_OVERLAYS := 4
  const NONSCALING_OVERLAYS := 1

  datatype Kind = KindNV12 | KindBGR | KindRGB

  /**
    What planning looks at. `valid` sums up `is_valid_layer`, so it includes that the format is one
    of the three kinds and that the display can scale the layer.
   */
  datatype Layer = Layer(valid: bool, kind: Kind, blended: bool, scaled: bool, dockable: bool,
                         protected: bool, upscaledNV12: bool, mem: nat, area: int)

  datatype ExtTransform = ExtTransform(rotation: int, hflip: bool, enabled: bool, docking: bool)

  datatype Counts = Counts(possible: nat, composited: nat, scaled: nat, rgb: nat, bgr: nat, nv12: nat,
                           dockable: nat, protected: nat, mem: nat)

  /** The device fields that decide about layers. */
  datatype Env = Env(maxHw: int, maxScaling: int, useSgx: bool, swapRb: bool, forceSgx: nat,
                     rgbOrder: bool, nv12Only: bool, onTv: bool, extOnTv: bool,
                     current: ExtTransform, primaryTransform: bool, slot: nat)

  function One(b: bool): nat { if b then 1 else 0 }

  /** NV12 layers and scaled layers need a scaling pipe. */
  predicate NeedsScaler(l: Layer) { l.scaled || l.kind == KindNV12 }

  function AddLayer(c: Counts, l: Layer, primaryTransform: bool): (r: Counts)
    ensures r.composited == c.composited
  {
    if !l.valid then c
    else Counts(c.possible + 1, c.composited, c.scaled + One(NeedsScaler(l) || primaryTransform),
                c.rgb + One(l.kind == KindRGB), c.bgr + One(l.kind == KindBGR), c.nv12 + One(l.kind == KindNV12),
                c.dockable + One(l.dockable), c.protected + One(l.protected), c.mem + l.mem)
  }

  /** `gather_layer_statistics` over the first `k` layers. */
  function Stats(list: seq<Layer>, primaryTransform: bool, k: nat): (c: Counts)
    requires k <= |list|
    ensures c.composited == |list|
  {
    if k == 0 then Counts(0, |list|, 0, 0, 0, 0, 0, 0, 0)
    else AddLayer(Stats(list, primaryTransform, k - 1), list[k - 1], primaryTransform)
  }

  // ----- What the statistics count -----

  /** What a layer can be counted for. */
  datatype Feature = Valid | Scaling(always: bool) | Of(kind: Kind) | Dockable | Protected {
    predicate In(l: Layer) {
      l.valid &&
      match this
      case Valid => true
      case Scaling(always) => l.scaled || l.kind == KindNV12 || always
      case Of(kind) => l.kind == kind
      case Dockable => l.dockable
      case Protected => l.protected
    }
  }

  /** The layers below `k` that have the feature. */
  ghost function Those(list: seq<Layer>, k: nat, f: Feature): set<nat>
    requires k <= |list|
  {
    set i: nat | i < k && f.In(list[i])
  }

  lemma ThoseGrow(list: seq<Layer>, k: nat, f: Feature)
    requires 0 < k <= |list|
    ensures |Those(list, k, f)| == |Those(list, k - 1, f)| + One(f.In(list[k - 1]))
  {
    var (was, now) := (Those(list, k - 1, f), Those(list, k, f));
    assert now == was + if f.In(list[k - 1]) then {k - 1} else {};
    assert k - 1 !in was;
  }

  function CountOf(c: Counts, f: Feature): nat {
    match f
    case Valid => c.possible
    case Scaling(_) => c.scaled
    case Of(kind) => if kind == KindNV12 then c.nv12 else if kind == KindBGR then c.bgr else c.rgb
    case Dockable => c.dockable
    case Protected => c.protected
  }

  /** Every count is the number of layers that have the feature it is named after. */
  lemma {:induction false} StatsCount(list: seq<Layer>, pt: bool, k: nat, f: Feature)
    requires k <= |list| && (f.Scaling? ==> f.always == pt)
    ensures CountOf(Stats(list, pt, k), f) == |Those(list, k, f)|
  {
    if k > 0 {
      StatsCount(list, pt, k - 1, f);
      ThoseGrow(list, k, f);
    }
  }

  predicate Has(list: seq<Layer>, f: Feature) { exists i :: 0 <= i < |list| && f.In(list[i]) }

  /** In particular it is positive exactly if there is one. */
  lemma StatsFind(list: seq<Layer>, pt: bool, f: Feature)
    requires f.Scaling? ==> f.always == pt
    ensures CountOf(Stats(list, pt, |list|), f) > 0 <==> Has(list, f)
  {
    StatsCount(list, pt, |list|, f);
    var those := Those(list, |list|, f);
    if those != {} {
      var i :| i in those;
      assert 0 <= i < |list| && f.In(list[i]);
    }
    forall i | 0 <= i < |list| && f.In(list[i]) ensures i in those {
    }
  }

  /** `can_dss_render_all`. */
  predicate CanRenderAll(e: Env, c: Counts) {
    var onTv := e.onTv || (e.extOnTv && e.current.enabled);
    var tform := e.current.enabled && (e.current.rotation != 0 || e.current.hflip);
    && e.forceSgx == 0
    && c.possible > 0 && c.possible <= e.maxHw && c.possible == c.composited
    && c.scaled <= e.maxScaling && c.nv12 <= e.maxScaling
    && c.mem <= e.slot
    && (!tform || c.nv12 == c.possible || (c.nv12 > 0 && e.current.docking))
    && (c.bgr == 0 || (c.rgb == 0 && !onTv) || !e.rgbOrder)
    && (!e.nv12Only || (c.bgr == 0 && c.rgb == 0))
  }

  predicate Cloning(e: Env, l: Layer) { e.current.enabled && (!e.current.docking || l.dockable) }

  /** `can_dss_render_layer`. */
  predicate CanRender(e: Env, l: Layer) {
    var onTv := e.onTv || (e.extOnTv && Cloning(e, l));
    var tform := Cloning(e, l) && (e.current.rotation != 0 || e.current.hflip);
    && l.valid
    && (!tform || l.kind == KindNV12)
    && (!e.nv12Only || !e.useSgx || l.kind == KindNV12)
    && (!(if e.swapRb then l.kind == KindRGB else l.kind == KindBGR) || !e.rgbOrder)
    && !(onTv && l.kind == KindBGR)
  }

  // ----- The planning loop -----

  /** Accepted layers in order, their memory, and the framebuffer's z-order (-1: none yet). */
  datatype Plan = Plan(acc: seq<nat>, mem: nat, fbZ: int)

  function Base(e: Env): nat { if e.useSgx then 1 else 0 }

  /** The test at the head of the loop. */
  predicate Accepts(e: Env, p: Plan, l: Layer) {
    && Base(e) + |p.acc| < e.maxHw
    && CanRender(e, l)
    && (e.forceSgx == 0 || l.protected || l.upscaledNV12
        || (e.current.docking && e.current.enabled && l.dockable))
    && p.mem + l.mem <= e.slot
    && !(l.blended && p.fbZ >= 0)
  }

  /** The decisions for the first `k` layers; the framebuffer always ends up above those so far. */
  function Choose(e: Env, list: seq<Layer>, k: nat): Plan
    requires k <= |list|
  {
    if k == 0 then Plan([], 0, -1)
    else
      var p := Choose(e, list, k - 1);
      if Accepts(e, p, list[k - 1]) then p.(acc := p.acc + [k - 1], mem := p.mem + list[k - 1].mem)
      else if e.useSgx then p.(fbZ := |p.acc|)
      else p
  }

  /** Shape of a plan: layers in order, and the framebuffer somewhere among them. */
  lemma {:induction false} ChooseShape(e: Env, list: seq<Layer>, k: nat)
    requires k <= |list|
    ensures var p := Choose(e, list, k);
            && |p.acc| <= k && -1 <= p.fbZ <= |p.acc| && (!e.useSgx ==> p.fbZ == -1)
            && (forall j :: 0 <= j < |p.acc| ==> p.acc[j] < k && list[p.acc[j]].valid)
            && (forall i, j :: 0 <= i < j < |p.acc| ==> p.acc[i] < p.acc[j])
            && (p.acc == [] || Base(e) + |p.acc| <= e.maxHw)
  {
    if k > 0 {
      ChooseShape(e, list, k - 1);
    }
  }

  /** The layer must not be left to SGX even where SGX is forced. */
  predicate KeptFromSgx(e: Env, l: Layer) {
    l.protected || l.upscaledNV12 || (e.current.docking && e.current.enabled && l.dockable)
  }

  /** What overlays are worth: whatever is accepted passed its own test, and has a reason if SGX is forced. */
  lemma {:induction false} AcceptedRender(e: Env, list: seq<Layer>, k: nat)
    requires k <= |list|
    ensures forall j :: 0 <= j < |Choose(e, list, k).acc| ==>
              var i := Choose(e, list, k).acc[j];
              i < k && CanRender(e, list[i]) && (e.forceSgx > 0 ==> KeptFromSgx(e, list[i]))
  {
    if k > 0 {
      AcceptedRender(e, list, k - 1);
    }
  }

  /** The memory of the layers with the given indexes. */
  function MemoryOf(list: seq<Layer>, acc: seq<nat>): nat
    requires forall j :: 0 <= j < |acc| ==> acc[j] < |list|
  {
    if acc == [] then 0 else MemoryOf(list, acc[..|acc| - 1]) + list[acc[|acc| - 1]].mem
  }

  /** The overlays together fit into the memory slot. */
  lemma {:induction false} AcceptedFit(e: Env, list: seq<Layer>, k: nat)
    requires k <= |list|
    ensures var p := Choose(e, list, k);
            && (forall j :: 0 <= j < |p.acc| ==> p.acc[j] < |list|)
            && p.mem == MemoryOf(list, p.acc) <= (if p.acc == [] then 0 else e.slot)
  {
    if k > 0 {
      AcceptedFit(e, list, k - 1);
      var (p, q) := (Choose(e, list, k - 1), Choose(e, list, k));
      if Accepts(e, p, list[k - 1]) {
        assert q.acc[..|q.acc| - 1] == p.acc;
      }
    }
  }

  // ----- No layer is lost when the display can render all -----

  lemma {:induction false} StatsBounds(list: seq<Layer>, pt: bool, j: nat, k: nat)
    requires j <= k <= |list|
    ensures var (a, b) := (Stats(list, pt, j), Stats(list, pt, k));
            && a.possible <= b.possible <= a.possible + (k - j) && a.scaled <= b.scaled && a.rgb <= b.rgb
            && a.bgr <= b.bgr && a.nv12 <= b.nv12 <= a.nv12 + (b.possible - a.possible) && a.mem <= b.mem
  {
    if j < k {
      StatsBounds(list, pt, j, k - 1);
    }
  }

  /** What the aggregate counts say about one layer. */
  lemma CountsSpeak(list: seq<Layer>, pt: bool, i: nat)
    requires i < |list|
    ensures var c := Stats(list, pt, |list|);
            && (c.possible == |list| ==> list[i].valid)
            && (c.bgr == 0 && list[i].valid ==> list[i].kind != KindBGR)
            && (c.rgb == 0 && list[i].valid ==> list[i].kind != KindRGB)
            && (c.nv12 == c.possible && list[i].valid ==> list[i].kind == KindNV12)
            && (list[i].valid ==> Stats(list, pt, i).mem + list[i].mem <= c.mem)
  {
    StatsBounds(list, pt, 0, i);
    StatsBounds(list, pt, i + 1, |list|);
  }

  lemma {:induction false} SomeBGR(list: seq<Layer>, pt: bool, k: nat) returns (i: nat)
    requires k <= |list| && Stats(list, pt, k).bgr > 0
    ensures i < k && list[i].valid && list[i].kind == KindBGR
  {
    if list[k - 1].valid && list[k - 1].kind == KindBGR {
      i := k - 1;
    } else {
      i := SomeBGR(list, pt, k - 1);
    }
  }

  /** The flags `hwc_prepare` sets when the display can render all layers. */
  predicate AllOverlays(e: Env, c: Counts) {
    CanRenderAll(e, c) && !e.useSgx && e.swapRb == (c.bgr != 0)
  }

  /**
    The layers `can_dss_render_all` admits in the aggregate although `can_dss_render_layer` refuses
    them one by one: an RGB layer docked with a transform, and, unless colour order is enforced, a
    BGR layer shown on a TV.
   */
  predicate SlipsThrough(e: Env, l: Layer) {
    || (e.current.docking && Cloning(e, l) && (e.current.rotation != 0 || e.current.hflip) && l.kind != KindNV12)
    || (!e.rgbOrder && (e.onTv || (e.extOnTv && Cloning(e, l))) && l.kind == KindBGR)
  }

  lemma RenderableExactly(e: Env, list: seq<Layer>, i: nat)
    requires i < |list|
    requires AllOverlays(e, Stats(list, e.primaryTransform, |list|))
    ensures list[i].valid && (CanRender(e, list[i]) <==> !SlipsThrough(e, list[i]))
  {
    CountsSpeak(list, e.primaryTransform, i);
  }

  /** While all layers so far have been accepted, there is room for the next one. */
  lemma NextAccepted(e: Env, list: seq<Layer>, i: nat)
    requires i < |list| && AllOverlays(e, Stats(list, e.primaryTransform, |list|)) && !SlipsThrough(e, list[i])
    ensures list[i].valid
    ensures forall p: Plan :: |p.acc| == i && p.mem == Stats(list, e.primaryTransform, i).mem && p.fbZ == -1
              ==> Accepts(e, p, list[i])
  {
    RenderableExactly(e, list, i);
    CountsSpeak(list, e.primaryTransform, i);
  }

  lemma {:induction false} AllChosen(e: Env, list: seq<Layer>, k: nat)
    requires k <= |list| && AllOverlays(e, Stats(list, e.primaryTransform, |list|))
    requires forall i :: 0 <= i < k ==> !SlipsThrough(e, list[i])
    ensures Choose(e, list, k) == Plan(seq(k, i => i), Stats(list, e.primaryTransform, k).mem, -1)
  {
    if k > 0 {
      AllChosen(e, list, k - 1);
      NextAccepted(e, list, k - 1);
      assert seq(k, i => i) == seq(k - 1, i => i) + [k - 1];
      assert Stats(list, e.primaryTransform, k).mem == Stats(list, e.primaryTransform, k - 1).mem + list[k - 1].mem;
    }
  }

  /** The memory of the first `k` layers. */
  function Memory(list: seq<Layer>, k: nat): nat
    requires k <= |list|
  {
    if k == 0 then 0 else Memory(list, k - 1) + list[k - 1].mem
  }

  lemma MemoryGrows(list: seq<Layer>, j: nat, k: nat)
    requires j <= k <= |list|
    ensures Memory(list, j) <= Memory(list, k)
  {
    if j < k { MemoryGrows(list, j, k - 1); }
  }

  /** The lowest layers become overlays, as many as can be rendered and fit, with a framebuffer or without. */
  lemma {:induction false} LowestChosen(e: Env, list: seq<Layer>, k: nat)
    requires k <= |list| && Base(e) + k <= e.maxHw && Memory(list, k) <= e.slot
    requires forall i :: 0 <= i < k ==> CanRender(e, list[i]) && (e.forceSgx > 0 ==> KeptFromSgx(e, list[i]))
    ensures Choose(e, list, k) == Plan(seq(k, i => i), Memory(list, k), -1)
  {
    if k > 0 {
      LowestChosen(e, list, k - 1);
      assert seq(k, i => i) == seq(k - 1, i => i) + [k - 1];
    }
  }

  lemma {:induction false} MemoryCounted(list: seq<Layer>, pt: bool, k: nat)
    requires k <= |list| && forall i :: 0 <= i < k ==> list[i].valid
    ensures Stats(list, pt, k).mem == Memory(list, k)
  {
    if k > 0 {
      MemoryCounted(list, pt, k - 1);
    }
  }

  lemma {:induction false} AllValidCounted(list: seq<Layer>, pt: bool, k: nat)
    requires k <= |list|
    ensures Stats(list, pt, k).possible <= k
    ensures Stats(list, pt, k).possible == k <==> forall i :: 0 <= i < k ==> list[i].valid
  {
    if k > 0 {
      AllValidCounted(list, pt, k - 1);
    }
  }

  lemma {:induction false} AllVideoCounted(list: seq<Layer>, pt: bool, k: nat)
    requires k <= |list| && forall i :: 0 <= i < k ==> list[i].valid
    ensures var c := Stats(list, pt, k);
            && c.nv12 <= c.possible == k && (c.nv12 == k <==> c.bgr == c.rgb == 0)
            && (c.nv12 == k <==> forall i :: 0 <= i < k ==> list[i].kind == KindNV12)
  {
    if k > 0 {
      AllVideoCounted(list, pt, k - 1);
    }
  }

  /**
    When the display can render all, said of the layers: they are valid, as many as there are overlays,
    scalers and memory for; on a turned external display they are videos, or docked with one among
    them; if colour order matters they are of one order, and not BGR on a TV.
   */
  ghost predicate AllRenderable(e: Env, list: seq<Layer>) {
    var onTv := e.onTv || (e.extOnTv && e.current.enabled);
    var turned := e.current.enabled && (e.current.rotation != 0 || e.current.hflip);
    var videos := forall i :: 0 <= i < |list| ==> list[i].kind == KindNV12;
    && e.forceSgx == 0 && 0 < |list| <= e.maxHw
    && (forall i :: 0 <= i < |list| ==> list[i].valid)
    && |Those(list, |list|, Scaling(e.primaryTransform))| <= e.maxScaling
    && Memory(list, |list|) <= e.slot
    && (turned ==> videos || (e.current.docking && Has(list, Of(KindNV12))))
    && (e.rgbOrder && Has(list, Of(KindBGR)) ==> !Has(list, Of(KindRGB)) && !onTv)
    && (e.nv12Only ==> videos)
  }

  /** Main result: the aggregate test holds exactly then. */
  lemma RendersAllExactly(e: Env, list: seq<Layer>)
    ensures CanRenderAll(e, Stats(list, e.primaryTransform, |list|)) <==> AllRenderable(e, list)
  {
    var pt := e.primaryTransform;
    StatsCount(list, pt, |list|, Scaling(pt));
    AllValidCounted(list, pt, |list|);
    if forall i :: 0 <= i < |list| ==> list[i].valid {
      MemoryCounted(list, pt, |list|);
      AllVideoCounted(list, pt, |list|);
      VideosScale(list, pt, |list|);
      KindsFound(list, pt);
    }
  }

  lemma KindsFound(list: seq<Layer>, pt: bool)
    ensures var c := Stats(list, pt, |list|);
            && (c.nv12 > 0 <==> Has(list, Of(KindNV12)))
            && (c.bgr > 0 <==> Has(list, Of(KindBGR)))
            && (c.rgb > 0 <==> Has(list, Of(KindRGB)))
  {
    StatsFind(list, pt, Of(KindNV12));
    StatsFind(list, pt, Of(KindBGR));
    StatsFind(list, pt, Of(KindRGB));
  }

  lemma {:induction false} VideosScale(list: seq<Layer>, pt: bool, k: nat)
    requires k <= |list|
    ensures Stats(list, pt, k).nv12 <= Stats(list, pt, k).scaled
  {
    if k > 0 {
      VideosScale(list, pt, k - 1);
    }
  }

  lemma {:induction false} LostStaysLost(e: Env, list: seq<Layer>, i: nat, k: nat)
    requires i < k <= |list| && !CanRender(e, list[i])
    ensures i !in Choose(e, list, k).acc
  {
    if i < k - 1 {
      LostStaysLost(e, list, i, k - 1);
    } else {
      ChooseShape(e, list, k - 1);
    }
  }

  /**
    Main result: when all layers are to be overlays, all of them become overlays exactly if none
    slips through the aggregate test. Otherwise a layer is shown nowhere, as there is no framebuffer.
   */
  lemma NoLayerLost(e: Env, list: seq<Layer>)
    requires AllOverlays(e, Stats(list, e.primaryTransform, |list|))
    ensures (forall i :: 0 <= i < |list| ==> i in Choose(e, list, |list|).acc)
            <==> (forall i :: 0 <= i < |list| ==> !SlipsThrough(e, list[i]))
  {
    if forall i :: 0 <= i < |list| ==> !SlipsThrough(e, list[i]) {
      AllChosen(e, list, |list|);
      forall i | 0 <= i < |list| ensures i in Choose(e, list, |list|).acc {
        assert Choose(e, list, |list|).acc[i] == i;
      }
    } else {
      var i :| 0 <= i < |list| && SlipsThrough(e, list[i]);
      RenderableExactly(e, list, i);
      LostStaysLost(e, list, i, |list|);
    }
  }

  /** What happens to one video and one RGB layer, both dockable, docked upside down. */
  lemma ExampleRefused(e: Env, ui: Layer)
    requires e.current == ExtTransform(2, false, true, true) && ui.dockable && ui.kind == KindRGB
    ensures !CanRender(e, ui)
  {
  }

  lemma ExampleStats(video: Layer, ui: Layer, list: seq<Layer>)
    requires list == [video, ui] && video.valid && ui.valid && video.mem == ui.mem == 0
    requires video.kind == KindNV12 && ui.kind == KindRGB && !ui.scaled
    ensures var c := Stats(list, false, 2);
            && c.possible == c.composited == 2 && c.scaled == c.rgb == c.nv12 == 1 && c.bgr == c.mem == 0
  {
    assert Stats(list, false, 1) == AddLayer(Stats(list, false, 0), video, false);
    assert Stats(list, false, 2) == AddLayer(Stats(list, false, 1), ui, false);
  }

  // ----- Scaling pipes -----

  /** If every accepted layer needs a scaler, the counts bound how many there are. */
  lemma {:induction false} ScalersCounted(e: Env, list: seq<Layer>, k: nat)
    requires k <= |list|
    requires forall i :: i in Choose(e, list, k).acc && i < |list| ==> NeedsScaler(list[i])
    ensures |Choose(e, list, k).acc| <= Stats(list, e.primaryTransform, k).scaled
  {
    if k > 0 {
      ChooseShape(e, list, k - 1);
      var (p, q) := (Choose(e, list, k - 1), Choose(e, list, k));
      ScalersCounted(e, list, k - 1);
      if Accepts(e, p, list[k - 1]) {
        assert k - 1 in q.acc;
      }
    }
  }
}
