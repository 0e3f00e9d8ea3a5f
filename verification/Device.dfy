/** The composer device: cloning decisions, overlay set-up, and the books kept from frame to frame. */
module Device {
  import opened Planner
  import opened Planes

  /** An overlay of the composition: `layer` is its list index, or -1 for the framebuffer. */
  datatype Ovl = Ovl(layer: int, zorder: int, ix: int, external: bool)

  function MinOf(a: int, b: int): int { if a < b then a else b }

  function MaxOf(a: int, b: int): int { if a > b then a else b }

  /** A docked display takes one overlay; it also does so while mirroring, if something is dockable. */
  predicate Docks(dock: bool, mirror: bool, needed: bool) { dock && !(mirror && !needed) }

  /** The overlays the external display should get. */
  function Wanted(dock: bool, mirror: bool, needed: bool): nat {
    if Docks(dock, mirror, needed) then One(needed) else if mirror then MAX_HW_OVERLAYS / 2 else 0
  }

  /** Properties and display facts that planning takes as given. */
  datatype Settings = Settings(dock: ExtTransform, mirror: ExtTransform, forceDock: bool, extOnTv: bool,
                               onTv: bool, rgbOrder: bool, nv12Only: bool, primaryTransform: bool,
                               forceSgx: nat, fbIsBgr: bool, slot: nat)

  /** The frame being prepared. */
  datatype Frame = Frame(current: ExtTransform, counts: Counts, maxHw: int, maxScaling: int, useSgx: bool,
                         swapRb: bool, extOvls: int, extWanted: int, post2: int, ovls: seq<Ovl>)

  /** `hwc_device_open` always makes the one transform a docking one and the other not. */
  predicate Sound(s: Settings) { s.dock.docking && !s.mirror.docking }

  predicate Needed(s: Settings, c: Counts) { c.dockable > 0 || s.forceDock }

  function EnvOf(s: Settings, f: Frame): Env {
    Env(f.maxHw, f.maxScaling, f.useSgx, f.swapRb, s.forceSgx, s.rgbOrder, s.nv12Only, s.onTv, s.extOnTv,
        f.current, s.primaryTransform, s.slot)
  }

  /** How the external display is used: docked, mirrored, or not at all. */
  function CurrentFor(s: Settings, c: Counts, was: ExtTransform): ExtTransform {
    if Docks(s.dock.enabled, s.mirror.enabled, Needed(s, c))
    then (if s.mirror.enabled then s.mirror.(docking := true) else s.dock)
    else if s.mirror.enabled then s.mirror
    else was.(enabled := false)
  }

  /**
    The transform in force: that of the mirror if there is one, else of the dock; and docking wins
    over mirroring only if there is something to dock.
   */
  lemma TransformInForce(s: Settings, c: Counts, was: ExtTransform)
    requires Sound(s)
    ensures var t := CurrentFor(s, c, was);
            && (t.enabled <==> s.dock.enabled || s.mirror.enabled)
            && (s.mirror.enabled ==> t.rotation == s.mirror.rotation && t.hflip == s.mirror.hflip)
            && (s.dock.enabled && !s.mirror.enabled ==> t == s.dock)
            && (s.mirror.enabled ==> (t.docking <==> s.dock.enabled && (c.dockable > 0 || s.forceDock)))
  {
  }

  /** The cloning decision for a frame, given the last composition. */
  predicate Decided(s: Settings, f: Frame, lastExt: int, lastInt: int) {
    Shared(s.dock.enabled, s.mirror.enabled, Needed(s, f.counts), f.counts.protected > 0, s.primaryTransform,
           lastExt, lastInt, f.current, f.maxHw, f.maxScaling, f.extOvls, f.extWanted)
  }

  /** What the last composition left is within the overlays there are. */
  predicate Books(lastExt: int, lastInt: int) {
    0 <= lastExt <= 2 && 0 <= lastInt && lastInt + lastExt <= MAX_HW_OVERLAYS
  }

  /** The decisions before the layer loop: statistics, cloning, who composes, and colour order. */
  predicate Begun(s: Settings, f: Frame, list: seq<Layer>, lastExt: int, lastInt: int) {
    && Decided(s, f, lastExt, lastInt)
    && f.counts == Stats(list, s.primaryTransform, |list|)
    && (f.useSgx <==> !CanRenderAll(EnvOf(s, f), f.counts))
    && f.swapRb == if f.useSgx then s.fbIsBgr else f.counts.bgr != 0
  }

  class HwcDevice {
    var settings: Settings
    var frame: Frame
    /** Overlays of the last composition on the external and the internal display. */
    var lastExt: int
    var lastInt: int

    /** `gather_layer_statistics`. */
    method GatherStatistics(list: seq<Layer>)
      modifies `frame
      ensures frame == old(frame).(counts := Stats(list, settings.primaryTransform, |list|))
    {
      var num := Counts(0, |list|, 0, 0, 0, 0, 0, 0, 0);
      for i := 0 to |list|
        modifies {}
        invariant num == Stats(list, settings.primaryTransform, i)
      {
        num := CountLayer(num, list[i], settings.primaryTransform);
      }
      frame := frame.(counts := num);
    }

    /**
      `decide_supported_cloning`: what each display may use of the four overlays, given what both
      used last time.
     */
    method DecideSupportedCloning()
      requires Sound(settings) && Books(lastExt, lastInt)
      modifies `frame
      ensures Decided(settings, frame, lastExt, lastInt)
      ensures frame.counts == old(frame.counts)
      ensures frame.current == CurrentFor(settings, frame.counts, old(frame).current)
    {
      var s, num := settings, frame.counts;
      var nonscaling := NONSCALING_OVERLAYS;
      var max := MAX_HW_OVERLAYS;
      var current := frame.current;
      var ext;
      if s.dock.enabled && !(s.mirror.enabled && !(num.dockable > 0 || s.forceDock)) {
        ext := if num.dockable > 0 || s.forceDock then 1 else 0;
        max := max - MaxOf(ext, lastExt);
        if s.mirror.enabled {
          current := s.mirror.(docking := true);
        } else {
          current := s.dock;
        }
      } else if s.mirror.enabled {
        max := max / 2;
        nonscaling := nonscaling / 2;
        ext := MAX_HW_OVERLAYS - max;
        current := s.mirror;
      } else {
        max := max - lastExt;
        ext := 0;
        current := current.(enabled := false);
      }
      var wanted := ext;
      ext := MinOf(MAX_HW_OVERLAYS - lastInt, ext);
      if num.protected == 0 && ext > 0 && current.enabled && !current.docking {
        max := ext;
      }
      var scaling;
      if s.primaryTransform {
        max := max - NONSCALING_OVERLAYS;
        scaling := max;
      } else {
        scaling := max - nonscaling;
      }
      frame := frame.(current := current, maxHw := max, maxScaling := scaling, extOvls := ext, extWanted := wanted);
    }

    /** The part of `hwc_prepare` before the layer loop. */
    method BeginFrame(list: seq<Layer>)
      requires Sound(settings) && Books(lastExt, lastInt)
      modifies `frame
      ensures Begun(settings, frame, list, lastExt, lastInt)
      ensures frame.current == CurrentFor(settings, frame.counts, old(frame).current)
    {
      GatherStatistics(list);
      DecideSupportedCloning();
      var e := EnvOf(settings, frame);
      var all := CanRenderAll(e, frame.counts);
      frame := frame.(useSgx := !all, swapRb := if all then frame.counts.bgr != 0 else settings.fbIsBgr);
      FlagsAside(e, frame.counts, frame.useSgx, frame.swapRb);
    }

    /**
      `hwc_prepare`. `outcome.blits` tells whether the blitter takes the framebuffer layers, the
      other flag whether the external display accepts a mode. `begun` is what the layer loop saw, and
      `marks` what it wrote into the layers.
     */
    method Prepare(list: seq<Layer>, policy: Policy, outcome: Outcome, lastDocking: bool)
      returns (ghost begun: Frame, marks: seq<Mark>)
      requires Sound(settings) && Books(lastExt, lastInt)
      modifies `frame
      ensures Begun(settings, begun, list, lastExt, lastInt)
      ensures begun.current == CurrentFor(settings, begun.counts, old(frame).current)
      ensures Marked(EnvOf(settings, begun), list, policy == BlitAll && outcome.blits, marks)
      ensures Prepared(settings, begun, list, policy == BlitAll && outcome.blits, outcome.mode, lastDocking,
                       lastExt, lastInt, frame)
      ensures Left(settings, begun, list, policy, outcome, frame)
    {
      BeginFrame(list);
      begun := frame;
      var o, dockIx;
      o, dockIx, marks := SetUpInternal(EnvOf(settings, frame), list, policy == BlitAll && outcome.blits,
                                        frame.extWanted);
      frame := CompleteFrame(settings, frame, list, o, dockIx, policy, outcome, lastDocking, lastExt, lastInt);
    }

    /** The end of `hwc_set`: the composition becomes the last one. */
    method Set()
      requires frame.post2 >= 0
      requires HandedOver(frame.post2, frame.extOvls, |frame.ovls| - frame.post2, frame.extWanted, lastInt, lastExt)
      modifies `lastExt, `lastInt
      ensures Books(lastExt, lastInt) && lastExt == frame.extOvls && lastInt == frame.post2
    {
      lastExt := frame.extOvls;
      lastInt := frame.post2;
    }
  }

  /** One layer's share of the statistics. */
  method CountLayer(num0: Counts, l: Layer, primaryTransform: bool) returns (num: Counts)
    ensures num == AddLayer(num0, l, primaryTransform)
  {
    num := num0;
    if l.valid {
      num := num.(possible := num.possible + 1);
      if l.scaled || l.kind == KindNV12 || primaryTransform {
        num := num.(scaled := num.scaled + 1);
      }
      if l.kind == KindBGR {
        num := num.(bgr := num.bgr + 1);
      } else if l.kind == KindRGB {
        num := num.(rgb := num.rgb + 1);
      } else {
        num := num.(nv12 := num.nv12 + 1);
      }
      if l.dockable { num := num.(dockable := num.dockable + 1); }
      if l.protected { num := num.(protected := num.protected + 1); }
      num := num.(mem := num.mem + l.mem);
    }
  }

  /**
    How the four overlays are shared out. Nothing goes below zero, although the source counts in
    unsigned numbers.
   */
  predicate Shared(dock: bool, mirror: bool, needed: bool, protected: bool, pt: bool, lastExt: int, lastInt: int,
                   current: ExtTransform, maxHw: int, maxScaling: int, ext: int, wanted: int) {
    && wanted == Wanted(dock, mirror, needed) && ext == MinOf(MAX_HW_OVERLAYS - lastInt, wanted)
    && (current.enabled <==> dock || mirror)
    && (current.enabled ==> (current.docking <==> Docks(dock, mirror, needed)))
    && 0 <= maxScaling <= maxHw <= MAX_HW_OVERLAYS - One(pt) - lastExt
    && (current.enabled && current.docking ==> maxHw == MAX_HW_OVERLAYS - One(pt) - MaxOf(wanted, lastExt))
    && (current.enabled && !current.docking ==> maxHw == (if !protected && ext > 0 then ext else 2) - One(pt))
    && (!current.enabled ==> maxHw == MAX_HW_OVERLAYS - One(pt) - lastExt)
    && maxScaling == maxHw - if pt || (current.enabled && !current.docking) then 0 else 1
  }

  /** While the same overlays are wanted and shown, none lies idle: what is not outside may be used inside. */
  lemma NoOverlayIdle(s: Settings, f: Frame, list: seq<Layer>, lastExt: int, lastInt: int)
    requires Begun(s, f, list, lastExt, lastInt) && lastExt == f.extOvls == f.extWanted
    ensures f.maxHw + One(s.primaryTransform) + f.extOvls == MAX_HW_OVERLAYS
    ensures f.maxScaling == f.maxHw - if s.primaryTransform || (f.extOvls == 2) then 0 else 1
  {
  }

  // ----- Overlays of a plan -----

  /** The overlays of a plan: accepted layers in order, with a gap in z where the framebuffer is. */
  ghost predicate Planned(e: Env, list: seq<Layer>, p: Plan, o: seq<Ovl>) {
    && |o| == Base(e) + |p.acc|
    && (forall j :: 0 <= j < |p.acc| ==> p.acc[j] < |list|)
    && (forall k :: 0 <= k < |o| ==> !o[k].external) && (e.useSgx ==> o[0].layer == -1)
    && (forall k :: Base(e) <= k < |o| ==>
          o[k].layer == p.acc[k - Base(e)]
          && o[k].zorder == k - Base(e) + One(0 <= p.fbZ <= k - Base(e)))
  }

  /** Overlay `k` of a plan shows a layer, and maybe needs a scaling pipe for it. */
  predicate Scales(list: seq<Layer>, o: seq<Ovl>, k: int) {
    0 <= k < |o| && 0 <= o[k].layer < |list| && NeedsScaler(list[o[k].layer])
  }

  /** Pipes while planning: in order, but with the first overlay swapped out of the GFX pipe. */
  ghost predicate Swapped(e: Env, list: seq<Layer>, o: seq<Ovl>, swapped: int, scaledGfx: bool) {
    if e.useSgx || e.primaryTransform then
      !scaledGfx && forall k :: Base(e) <= k < |o| ==> o[k].ix == k + One(e.primaryTransform)
    else
      && (o == [] ==> swapped == 0 && !scaledGfx)
      && (o != [] ==> 0 <= swapped < |o|)
      && (forall k :: 0 <= k < |o| ==> o[k].ix == if k == 0 then swapped else if k == swapped then 0 else k)
      && (scaledGfx ==> o != [] && swapped == 0 && forall k :: 0 <= k < |o| ==> Scales(list, o, k))
      && (!scaledGfx && o != [] ==> !Scales(list, o, swapped))
  }

  ghost predicate AllScale(list: seq<Layer>, acc: seq<nat>) {
    forall i :: i in acc && i < |list| ==> NeedsScaler(list[i])
  }

  ghost predicate DistinctPipes(o: seq<Ovl>, lo: nat) {
    forall j, k :: lo <= j < k < |o| ==> o[j].ix != o[k].ix
  }

  /** Pipes follow on each other; the one after the last is used only when all layers need scaling. */
  ghost predicate PipeRange(e: Env, list: seq<Layer>, acc: seq<nat>, o: seq<Ovl>) {
    forall k :: Base(e) <= k < |o| ==>
      && Base(e) + One(e.primaryTransform) <= o[k].ix <= |o|
      && (o[k].ix < |o| || e.primaryTransform || AllScale(list, acc))
  }

  /** The GFX pipe (0) does not scale. */
  ghost predicate GfxUnscaled(list: seq<Layer>, o: seq<Ovl>) {
    forall k :: 0 <= k < |o| && o[k].ix == 0 ==> !Scales(list, o, k)
  }

  /** With a framebuffer, or without the GFX pipe, nothing is ever swapped. */
  ghost predicate InOrderPipes(e: Env, o: seq<Ovl>) {
    e.useSgx || e.primaryTransform ==>
      forall k :: Base(e) <= k < |o| ==> o[k].ix == k + One(e.primaryTransform)
  }

  ghost predicate PipesSet(e: Env, list: seq<Layer>, acc: seq<nat>, o: seq<Ovl>) {
    DistinctPipes(o, Base(e)) && PipeRange(e, list, acc, o) && GfxUnscaled(list, o) && InOrderPipes(e, o)
  }

  /** The first of the largest dockable overlays, or -1. */
  ghost predicate LargestDockable(list: seq<Layer>, o: seq<Ovl>, lo: nat, d: int) {
    && (forall k :: lo <= k < |o| ==> 0 <= o[k].layer < |list|)
    && (d == -1 || (lo <= d < |o| && list[o[d].layer].dockable))
    && (forall k :: lo <= k < |o| && list[o[k].layer].dockable ==>
          d != -1 && list[o[k].layer].area <= list[o[d].layer].area
          && (k < d ==> list[o[k].layer].area < list[o[d].layer].area))
  }

  /** Everything known before layer `i` is looked at. */
  ghost predicate Planning(e: Env, list: seq<Layer>, i: nat, o: seq<Ovl>, z: int, fbZ: int, dockIx: int,
                           scaledGfx: bool, swapped: int)
    requires i <= |list|
  {
    var p := Choose(e, list, i);
    && fbZ == p.fbZ && z == |p.acc| + One(fbZ >= 0)
    && Planned(e, list, p, o) && Swapped(e, list, o, swapped, scaledGfx)
    && LargestDockable(list, o, Base(e), dockIx)
  }

  /** What the loop writes into a layer: its composition type, overlay or framebuffer, and the clear hint. */
  datatype Mark = Mark(overlay: bool, clearFb: bool)

  /** How `gather_layer_statistics` leaves a layer. */
  const UNMARKED := Mark(false, false)

  /** Accepted layers become overlays; unless they are blended, SGX has to clear the framebuffer there. */
  function MarkOf(e: Env, list: seq<Layer>, i: nat): Mark
    requires i < |list|
  {
    if Accepts(e, Choose(e, list, i), list[i]) then Mark(true, e.useSgx && !list[i].blended) else UNMARKED
  }

  ghost predicate Marked(e: Env, list: seq<Layer>, blitAll: bool, marks: seq<Mark>) {
    |marks| == |list|
    && forall i {:trigger marks[i]} :: 0 <= i < |list| ==> marks[i] == if blitAll then UNMARKED else MarkOf(e, list, i)
  }

  /** The layer loop of `hwc_prepare`. */
  method LayerLoop(e: Env, list: seq<Layer>)
    returns (o: seq<Ovl>, z: int, fbZ: int, dockIx: int, scaledGfx: bool, marks: seq<Mark>, ghost swapped: int)
    ensures Planning(e, list, |list|, o, z, fbZ, dockIx, scaledGfx, swapped)
    ensures Marked(e, list, false, marks)
  {
    marks := [];
    o := if e.useSgx then [Ovl(-1, 0, 0, false)] else [];
    z, fbZ, dockIx, scaledGfx, swapped := 0, -1, -1, false, 0;
    var mem := 0;
    for i := 0 to |list|
      invariant mem == Choose(e, list, i).mem
      invariant Planning(e, list, i, o, z, fbZ, dockIx, scaledGfx, swapped)
      invariant |marks| == i && forall k {:trigger marks[k]} :: 0 <= k < i ==> marks[k] == MarkOf(e, list, k)
    {
      var mark;
      o, z, fbZ, dockIx, scaledGfx, mem, mark, swapped :=
        PlanLayer(e, list, i, o, z, fbZ, dockIx, scaledGfx, mem, swapped);
      marks := marks + [mark];
    }
  }

  /** The loop and the last GFX correction: the overlays set up for a list. */
  method PlanLayers(e: Env, list: seq<Layer>) returns (o: seq<Ovl>, z: int, fbZ: int, dockIx: int, marks: seq<Mark>)
    ensures Marked(e, list, false, marks)
    ensures Planned(e, list, Choose(e, list, |list|), o)
    ensures fbZ == Choose(e, list, |list|).fbZ
    ensures z == |Choose(e, list, |list|).acc| + One(fbZ >= 0)
    ensures PipesSet(e, list, Choose(e, list, |list|).acc, o)
    ensures LargestDockable(list, o, Base(e), dockIx)
  {
    var scaledGfx;
    ghost var swapped;
    o, z, fbZ, dockIx, scaledGfx, marks, swapped := LayerLoop(e, list);
    o := FinalPipes(e, list, o, z, fbZ, dockIx, scaledGfx, swapped);
  }

  /** The body of the layer loop. */
  method PlanLayer(e: Env, list: seq<Layer>, i: nat, o0: seq<Ovl>, z0: int, fbZ0: int, dockIx0: int,
                   scaledGfx0: bool, mem0: nat, ghost swapped0: int)
    returns (o: seq<Ovl>, z: int, fbZ: int, dockIx: int, scaledGfx: bool, mem: nat, mark: Mark, ghost swapped: int)
    requires i < |list| && mem0 == Choose(e, list, i).mem
    requires Planning(e, list, i, o0, z0, fbZ0, dockIx0, scaledGfx0, swapped0)
    ensures mem == Choose(e, list, i + 1).mem && mark == MarkOf(e, list, i)
    ensures Planning(e, list, i + 1, o, z, fbZ, dockIx, scaledGfx, swapped)
  {
    var l := list[i];
    mark := UNMARKED;
    o, z, fbZ, dockIx, scaledGfx, mem, swapped := o0, z0, fbZ0, dockIx0, scaledGfx0, mem0, swapped0;
    if |o| < e.maxHw && CanRender(e, l)
       && (e.forceSgx == 0 || l.protected || l.upscaledNV12
           || (e.current.docking && e.current.enabled && l.dockable))
       && mem + l.mem <= e.slot && !(l.blended && fbZ >= 0) {
      mem := mem + l.mem;
      mark := Mark(true, false);
      if e.useSgx && !l.blended {
        mark := mark.(clearFb := true);
      }
      o, dockIx, scaledGfx, swapped := AddOverlay(e, list, i, o, z, fbZ, dockIx, scaledGfx, swapped);
      z := z + 1;
    } else {
      o, z, fbZ := SkipLayer(e, list, i, o, z, fbZ, dockIx, scaledGfx, swapped);
    }
  }

  /** The body of the accepting branch. */
  method AddOverlay(e: Env, list: seq<Layer>, i: nat, o0: seq<Ovl>, z: int, fbZ: int, dockIx0: int,
                    scaledGfx0: bool, ghost swapped0: int)
    returns (o: seq<Ovl>, dockIx: int, scaledGfx: bool, ghost swapped: int)
    requires i < |list| && Planning(e, list, i, o0, z, fbZ, dockIx0, scaledGfx0, swapped0)
    requires Accepts(e, Choose(e, list, i), list[i])
    ensures Planning(e, list, i + 1, o, z + 1, fbZ, dockIx, scaledGfx, swapped)
  {
    var num := |o0|;
    var l := list[i];
    dockIx := dockIx0;
    o := o0 + [Ovl(i, z, num + if e.primaryTransform then 1 else 0, false)];
    assert o[..num] == o0 && o[num].layer == i;
    o, scaledGfx, swapped := KeepGfxUnscaled(e, list, o0, o, scaledGfx0, swapped0);
    if l.dockable && (dockIx < 0 || l.area > list[o[dockIx].layer].area) {
      dockIx := num;
    }
    OverlayAdded(e, list, i, o0, o, z, fbZ, dockIx0, dockIx, scaledGfx0, swapped0, scaledGfx, swapped);
  }

  lemma OverlayAdded(e: Env, list: seq<Layer>, i: nat, o0: seq<Ovl>, o: seq<Ovl>, z: int, fbZ: int, d0: int, d: int,
                     scaledGfx0: bool, swapped0: int, scaledGfx: bool, swapped: int)
    requires i < |list| && Planning(e, list, i, o0, z, fbZ, d0, scaledGfx0, swapped0)
    requires Accepts(e, Choose(e, list, i), list[i]) && |o| == |o0| + 1
    requires forall k :: 0 <= k < |o0| ==> o[k] == o0[k].(ix := o[k].ix)
    requires o[|o0|] == Ovl(i, z, o[|o0|].ix, false) && Swapped(e, list, o, swapped, scaledGfx)
    requires d == if list[i].dockable && (d0 < 0 || list[i].area > list[o0[d0].layer].area) then |o0| else d0
    ensures Planning(e, list, i + 1, o, z + 1, fbZ, d, scaledGfx, swapped)
  {
    ChooseShape(e, list, i);
    PlannedGrows(e, list, i, o0, o, z);
    DockableGrows(list, o0, o, Base(e), d0, d);
  }

  lemma PlannedGrows(e: Env, list: seq<Layer>, i: nat, o0: seq<Ovl>, o: seq<Ovl>, z: int)
    requires i < |list| && Planned(e, list, Choose(e, list, i), o0) && |o| == |o0| + 1
    requires z == |Choose(e, list, i).acc| + One(Choose(e, list, i).fbZ >= 0)
    requires Accepts(e, Choose(e, list, i), list[i])
    requires -1 <= Choose(e, list, i).fbZ <= |Choose(e, list, i).acc|
    requires forall k :: 0 <= k < |o0| ==> o[k] == o0[k].(ix := o[k].ix)
    requires o[|o0|] == Ovl(i, z, o[|o0|].ix, false)
    ensures Planned(e, list, Choose(e, list, i + 1), o)
  {
  }

  lemma DockableGrows(list: seq<Layer>, o0: seq<Ovl>, o: seq<Ovl>, lo: nat, d0: int, d: int)
    requires LargestDockable(list, o0, lo, d0) && |o| == |o0| + 1 && lo <= |o0|
    requires forall k :: 0 <= k < |o0| ==> o[k].layer == o0[k].layer
    requires 0 <= o[|o0|].layer < |list|
    requires var l := list[o[|o0|].layer];
             d == if l.dockable && (d0 < 0 || l.area > list[o0[d0].layer].area) then |o0| else d0
    ensures LargestDockable(list, o, lo, d)
  {
  }

  /** The body of the other branch: the layer is composed into the framebuffer, if there is one. */
  method SkipLayer(e: Env, list: seq<Layer>, i: nat, o0: seq<Ovl>, z0: int, fbZ0: int, ghost dockIx: int,
                   ghost scaledGfx: bool, ghost swapped: int)
    returns (o: seq<Ovl>, z: int, fbZ: int)
    requires i < |list| && Planning(e, list, i, o0, z0, fbZ0, dockIx, scaledGfx, swapped)
    requires !Accepts(e, Choose(e, list, i), list[i])
    ensures Planning(e, list, i + 1, o, z, fbZ, dockIx, scaledGfx, swapped)
  {
    ChooseShape(e, list, i);
    o, z, fbZ := o0, z0, fbZ0;
    if e.useSgx {
      if fbZ < 0 {
        fbZ := z;
        z := z + 1;
        FbBegins(e, list, i, o, z0, dockIx, scaledGfx, swapped);
      } else {
        o, fbZ := MoveFbUp(o, fbZ, z);
        FbMoved(e, list, i, o0, o, z, fbZ0, dockIx, scaledGfx, swapped);
      }
    }
  }

  lemma FbBegins(e: Env, list: seq<Layer>, i: nat, o: seq<Ovl>, z: int, dockIx: int, scaledGfx: bool, swapped: int)
    requires i < |list| && Planning(e, list, i, o, z, -1, dockIx, scaledGfx, swapped)
    requires e.useSgx && !Accepts(e, Choose(e, list, i), list[i])
    ensures Planning(e, list, i + 1, o, z + 1, z, dockIx, scaledGfx, swapped)
  {
  }

  lemma FbMoved(e: Env, list: seq<Layer>, i: nat, was: seq<Ovl>, o: seq<Ovl>, z: int, fbZ: int, dockIx: int,
                scaledGfx: bool, swapped: int)
    requires i < |list| && Planning(e, list, i, was, z, fbZ, dockIx, scaledGfx, swapped) && fbZ >= 0
    requires e.useSgx && !Accepts(e, Choose(e, list, i), list[i]) && |o| == |was|
    requires forall k :: 0 <= k < |o| ==> o[k] == was[k].(zorder := if k == 0 then was[k].zorder else k - 1)
    ensures Planning(e, list, i + 1, o, z, z - 1, dockIx, scaledGfx, swapped)
  {
    assert forall k :: 0 <= k < |o| ==> o[k].layer == was[k].layer && o[k].ix == was[k].ix;
    assert forall k :: Scales(list, o, k) == Scales(list, was, k);
  }

  /** After the loop: a GFX layer that still needs scaling gets the next video pipe. */
  method FinalPipes(e: Env, list: seq<Layer>, o0: seq<Ovl>, ghost z: int, ghost fbZ: int, ghost dockIx: int,
                    scaledGfx: bool, ghost swapped: int) returns (o: seq<Ovl>)
    requires Planning(e, list, |list|, o0, z, fbZ, dockIx, scaledGfx, swapped)
    ensures Planned(e, list, Choose(e, list, |list|), o)
    ensures PipesSet(e, list, Choose(e, list, |list|).acc, o)
    ensures LargestDockable(list, o, Base(e), dockIx)
  {
    o := o0;
    if scaledGfx {
      o := o[0 := o[0].(ix := |o|)];
      AllScaled(e, list, o0, Choose(e, list, |list|), swapped);
    } else if e.useSgx || e.primaryTransform {
      ShiftedPipes(e, list, o, Choose(e, list, |list|).acc, swapped);
    } else {
      SwappedPipes(e, list, o, Choose(e, list, |list|).acc, swapped);
    }
    assert forall k :: 0 <= k < |o| ==> o[k].layer == o0[k].layer;
  }

  lemma ShiftedPipes(e: Env, list: seq<Layer>, o: seq<Ovl>, acc: seq<nat>, swapped: int)
    requires Swapped(e, list, o, swapped, false) && (e.useSgx || e.primaryTransform)
    requires e.useSgx ==> !Scales(list, o, 0)
    ensures PipesSet(e, list, acc, o)
  {
  }

  lemma SwappedPipes(e: Env, list: seq<Layer>, o: seq<Ovl>, acc: seq<nat>, swapped: int)
    requires Swapped(e, list, o, swapped, false) && !e.useSgx && !e.primaryTransform
    ensures PipesSet(e, list, acc, o)
  {
  }

  lemma AllScaled(e: Env, list: seq<Layer>, o: seq<Ovl>, p: Plan, swapped: int)
    requires Swapped(e, list, o, swapped, true) && Planned(e, list, p, o)
    ensures PipesSet(e, list, p.acc, o[0 := o[0].(ix := |o|)])
  {
    forall i | i in p.acc && i < |list| ensures NeedsScaler(list[i]) {
      var j :| 0 <= j < |p.acc| && p.acc[j] == i;
      assert Scales(list, o, j);
    }
  }

  /** The GFX pipe is never given to a scaling layer for longer than it takes to find another one. */
  method KeepGfxUnscaled(e: Env, list: seq<Layer>, ghost was: seq<Ovl>, o0: seq<Ovl>, scaledGfx0: bool,
                         ghost swapped0: int)
    returns (o: seq<Ovl>, scaledGfx: bool, ghost swapped: int)
    requires o0 != [] && was == o0[..|o0| - 1] && Swapped(e, list, was, swapped0, scaledGfx0)
    requires |o0| - 1 >= Base(e) && 0 <= o0[|o0| - 1].layer < |list|
    requires o0[|o0| - 1].ix == |o0| - 1 + One(e.primaryTransform)
    ensures Swapped(e, list, o, swapped, scaledGfx) && |o| == |o0|
    ensures forall k :: 0 <= k < |o| ==> o[k] == o0[k].(ix := o[k].ix)
  {
    o, scaledGfx, swapped := o0, scaledGfx0, swapped0;
    assert forall k :: 0 <= k < |was| ==> Scales(list, was, k) == Scales(list, o0, k);
    var num := |o| - 1;
    var l := list[o[num].layer];
    if num == 0 && !e.primaryTransform {
      scaledGfx := l.scaled || l.kind == KindNV12;
    } else if scaledGfx && !l.scaled && l.kind != KindNV12 {
      o := o[num := o[num].(ix := 0)];
      o := o[0 := o[0].(ix := num)];
      scaledGfx := false;
      swapped := num;
    }
    assert forall k :: 0 <= k < |o| ==> Scales(list, o, k) == Scales(list, o0, k);
  }

  /** Moving the framebuffer to the top, by lowering the overlays it passes. */
  method MoveFbUp(o0: seq<Ovl>, fbZ0: int, z: int) returns (o: seq<Ovl>, fbZ: int)
    requires 0 <= fbZ0 <= z - 1 && |o0| == z
    requires forall k :: 1 <= k < |o0| ==> o0[k].zorder == k - 1 + One(fbZ0 <= k - 1)
    ensures |o| == |o0| && fbZ == z - 1
    ensures forall k :: 0 <= k < |o| ==> o[k] == o0[k].(zorder := if k == 0 then o0[k].zorder else k - 1)
  {
    o, fbZ := o0, fbZ0;
    while fbZ < z - 1
      invariant fbZ0 <= fbZ <= z - 1 && |o| == z
      invariant forall k :: 0 <= k < |o| ==>
        o[k] == o0[k].(zorder := if k == 0 then o0[k].zorder else k - 1 + One(fbZ <= k - 1))
    {
      o := o[1 + fbZ := o[1 + fbZ].(zorder := o[1 + fbZ].zorder - 1)];
      fbZ := fbZ + 1;
    }
  }

  // ----- The framebuffer's overlay -----

  ghost predicate HasZ(o: seq<Ovl>, z: int) { exists k :: 0 <= k < |o| && o[k].zorder == z }

  /** The z-orders are 0, 1, ... up to the number of overlays, once each. */
  ghost predicate ZStack(o: seq<Ovl>) {
    && (forall z :: 0 <= z < |o| ==> HasZ(o, z))
    && (forall k :: 0 <= k < |o| ==> 0 <= o[k].zorder < |o|)
    && (forall j, k :: 0 <= j < k < |o| ==> o[j].zorder != o[k].zorder)
  }

  function ToPlane(v: Ovl): Plane {
    if v.layer < 0 then FbPlane(v.zorder) else OverlayPlane(v.layer, v.zorder)
  }

  function ToPlanes(o: seq<Ovl>): (ps: seq<Plane>)
    ensures |ps| == |o| && forall k :: 0 <= k < |o| ==> ps[k] == ToPlane(o[k])
  {
    seq(|o|, k requires 0 <= k < |o| => ToPlane(o[k]))
  }

  /** The overlays the internal display gets: those of the plan, and the framebuffer if needed. */
  ghost predicate Internal(e: Env, list: seq<Layer>, o: seq<Ovl>) {
    var p := Choose(e, list, |list|);
    if e.useSgx then PlanesOf(WithFramebuffer(p), |list|, ToPlanes(o))
    else |o| == |p.acc| && forall k :: 0 <= k < |o| ==> o[k].layer == p.acc[k] && o[k].zorder == k
  }

  /** The set-up of the framebuffer overlay at the end of the loop. */
  method SetupFb(e: Env, list: seq<Layer>, o0: seq<Ovl>, z0: int, fbZ0: int) returns (o: seq<Ovl>, z: int)
    requires Planned(e, list, Choose(e, list, |list|), o0) && fbZ0 == Choose(e, list, |list|).fbZ
    requires z0 == |Choose(e, list, |list|).acc| + One(fbZ0 >= 0)
    requires PipesSet(e, list, Choose(e, list, |list|).acc, o0)
    ensures Internal(e, list, o) && z == |o| == |o0|
    ensures forall k :: 0 <= k < |o| ==> !o[k].external
    ensures forall k :: Base(e) <= k < |o| ==> o[k] == o0[k]
    ensures e.useSgx ==> o[0].layer == -1 && o[0].ix == One(e.primaryTransform)
  {
    ChooseShape(e, list, |list|);
    o, z := o0, z0;
    if e.useSgx {
      var fbZ := fbZ0;
      if fbZ < 0 {
        fbZ := z;
        z := z + 1;
      }
      o := o[0 := Ovl(-1, fbZ, if e.primaryTransform then 1 else 0, false)];
      FbPlanes(e, list, o0, o, fbZ);
    }
  }

  lemma FbPlanes(e: Env, list: seq<Layer>, o0: seq<Ovl>, o: seq<Ovl>, fbZ: int)
    requires Planned(e, list, Choose(e, list, |list|), o0) && e.useSgx
    requires fbZ == WithFramebuffer(Choose(e, list, |list|)).fbZ
    requires -1 <= Choose(e, list, |list|).fbZ <= |Choose(e, list, |list|).acc|
    requires o == o0[0 := Ovl(-1, fbZ, One(e.primaryTransform), false)]
    ensures PlanesOf(WithFramebuffer(Choose(e, list, |list|)), |list|, ToPlanes(o))
  {
    var ps := ToPlanes(o);
    forall k | 1 <= k < |ps|
      ensures ps[k] == OverlayPlane(Choose(e, list, |list|).acc[k - 1], if k - 1 < fbZ then k - 1 else k)
    {
      assert ps[k] == ToPlane(o0[k]);
    }
  }

  lemma InternalStacked(e: Env, list: seq<Layer>, o: seq<Ovl>)
    requires Internal(e, list, o)
    ensures ZStack(o)
  {
    if e.useSgx {
      var ps := ToPlanes(o);
      PlanesStacked(WithFramebuffer(Choose(e, list, |list|)), |list|, ps);
      forall z | 0 <= z < |o| ensures HasZ(o, z) {
        assert HasPlane(ps, z);
        var k :| 0 <= k < |ps| && ps[k].zorder == z;
        assert o[k].zorder == z;
      }
      assert forall k :: 0 <= k < |o| ==> ps[k].zorder == o[k].zorder;
    } else {
      forall z | 0 <= z < |o| ensures HasZ(o, z) {
        assert o[z].zorder == z;
      }
    }
  }

  // ----- Pipes of the internal display -----

  /** All pipes distinct, none beyond `top`, and no scaling layer in the GFX pipe. */
  ghost predicate PipesOk(list: seq<Layer>, o: seq<Ovl>, top: int) {
    DistinctPipes(o, 0) && GfxUnscaled(list, o) && forall k :: 0 <= k < |o| ==> 0 <= o[k].ix <= top
  }

  /** The limits the cloning decision sets, with `reserve` overlays kept back. */
  predicate Limited(e: Env, list: seq<Layer>, reserve: int) {
    && 0 <= reserve <= 2 && e.maxHw <= MAX_HW_OVERLAYS - One(e.primaryTransform) - reserve
    && (!e.useSgx ==> CanRenderAll(e, Stats(list, e.primaryTransform, |list|)))
    && e.maxScaling == e.maxHw - if e.primaryTransform then 0 else 1
  }

  /** The planned overlays keep to the pipes below the reserved ones. */
  lemma PlannedPipes(e: Env, list: seq<Layer>, o: seq<Ovl>, reserve: int)
    requires Planned(e, list, Choose(e, list, |list|), o) && Limited(e, list, reserve)
    requires PipeRange(e, list, Choose(e, list, |list|).acc, o)
    requires InOrderPipes(e, o)
    ensures |o| <= MaxOf(1, e.maxHw)
    ensures forall k :: Base(e) <= k < |o| ==> o[k].ix <= MAX_HW_OVERLAYS - 1 - reserve
  {
    var acc := Choose(e, list, |list|).acc;
    ChooseShape(e, list, |list|);
    if !e.useSgx && AllScale(list, acc) {
      ScalersCounted(e, list, |list|);
    }
  }

  /** What these limits are worth: pipes end below the reserved ones, framebuffer included. */
  lemma InternalPipes(e: Env, list: seq<Layer>, o0: seq<Ovl>, o: seq<Ovl>, reserve: int)
    requires |o| == |o0| && Base(e) <= |o| && Limited(e, list, reserve)
    requires PipesSet(e, list, Choose(e, list, |list|).acc, o0)
    requires forall k :: Base(e) <= k < |o| ==> o[k] == o0[k] && o0[k].ix <= MAX_HW_OVERLAYS - 1 - reserve
    requires e.useSgx ==> o[0].layer == -1 && o[0].ix == One(e.primaryTransform)
    ensures PipesOk(list, o, MAX_HW_OVERLAYS - 1 - reserve)
  {
    assert forall k :: Base(e) <= k < |o| ==> Scales(list, o, k) == Scales(list, o0, k);
    assert e.useSgx ==> !Scales(list, o, 0);
  }

  // ----- Cloning -----

  /** `clone_layer`: a copy of overlay `src` for the external display, on the last free pipe. */
  method CloneLayer(o0: seq<Ovl>, src: Ovl, post2: nat) returns (ok: bool, o: seq<Ovl>)
    requires post2 <= |o0|
    ensures ok <==> |o0| < MAX_HW_OVERLAYS
    ensures !ok ==> o == o0
    ensures ok ==> o == o0 + [Ovl(src.layer, src.zorder + post2, MAX_HW_OVERLAYS - 1 - (|o0| - post2), true)]
  {
    if |o0| >= MAX_HW_OVERLAYS {
      return false, o0;
    }
    var ix := MAX_HW_OVERLAYS - 1 - (|o0| - post2);
    o := o0 + [src.(ix := ix, external := true, zorder := src.zorder + post2)];
    ok := true;
  }

  lemma ZStackGrows(o: seq<Ovl>, v: Ovl)
    requires ZStack(o) && v.zorder == |o|
    ensures ZStack(o + [v])
  {
    var p := o + [v];
    forall z | 0 <= z < |p| ensures HasZ(p, z) {
      if z < |o| {
        assert HasZ(o, z);
        var k :| 0 <= k < |o| && o[k].zorder == z;
        assert p[k].zorder == z;
      } else {
        assert p[|o|].zorder == z;
      }
    }
  }

  /** Mirroring puts a second, equal stack on top of the first. */
  lemma ZStackDoubles(o: seq<Ovl>, p: seq<Ovl>)
    requires ZStack(o) && |p| == 2 * |o| && o == p[..|o|]
    requires forall k :: 0 <= k < |o| ==> p[|o| + k].zorder == o[k].zorder + |o|
    ensures ZStack(p)
  {
    forall z | 0 <= z < |p| ensures HasZ(p, z) {
      assert HasZ(o, if z < |o| then z else z - |o|);
      var k :| 0 <= k < |o| && o[k].zorder == if z < |o| then z else z - |o|;
      assert p[if z < |o| then k else |o| + k].zorder == z;
    }
    forall k | |o| <= k < |p| ensures p[k].zorder == o[k - |o|].zorder + |o| {
      assert p[|o| + (k - |o|)].zorder == o[k - |o|].zorder + |o|;
    }
  }

  /** The mirroring loop: clones overlays until all are done or the pipes run out. */
  method MirrorAll(o0: seq<Ovl>) returns (o: seq<Ovl>)
    requires |o0| <= MAX_HW_OVERLAYS
    ensures |o0| <= |o| <= MAX_HW_OVERLAYS && o[..|o0|] == o0
    ensures |o| == MinOf(2 * |o0|, MAX_HW_OVERLAYS)
    ensures forall k :: |o0| <= k < |o| ==>
      o[k] == Ovl(o0[k - |o0|].layer, o0[k - |o0|].zorder + |o0|, MAX_HW_OVERLAYS - 1 - (k - |o0|), true)
  {
    o := o0;
    var ix := 0;
    while ix < |o0|
      invariant 0 <= ix <= |o0| && |o| == |o0| + ix <= MAX_HW_OVERLAYS && o[..|o0|] == o0
      invariant forall k :: |o0| <= k < |o| ==>
        o[k] == Ovl(o0[k - |o0|].layer, o0[k - |o0|].zorder + |o0|, MAX_HW_OVERLAYS - 1 - (k - |o0|), true)
    {
      var ok;
      assert o[ix] == o0[ix];
      ok, o := CloneLayer(o, o[ix], |o0|);
      if !ok { break; }
      ix := ix + 1;
    }
  }

  // ----- One frame's overlays, both displays -----

  /** Setting up the framebuffer leaves the other overlays' pipes as planned. */
  lemma KeptPipes(e: Env, list: seq<Layer>, acc: seq<nat>, o0: seq<Ovl>, o: seq<Ovl>)
    requires PipesSet(e, list, acc, o0) && |o| == |o0| && Base(e) <= |o|
    requires forall k :: Base(e) <= k < |o| ==> o[k] == o0[k]
    requires e.useSgx ==> o[0].layer == -1
    ensures PipesSet(e, list, acc, o)
  {
    assert forall k :: Base(e) <= k < |o| ==> Scales(list, o, k) == Scales(list, o0, k);
  }

  /** What planning leaves on the internal display: overlays, pipes, and the docking candidate. */
  ghost predicate SetUp(e: Env, list: seq<Layer>, o: seq<Ovl>, dockIx: int) {
    && Internal(e, list, o) && LargestDockable(list, o, Base(e), dockIx)
    && PipesSet(e, list, Choose(e, list, |list|).acc, o)
    && (e.useSgx ==> o != [] && o[0].layer == -1 && o[0].ix == One(e.primaryTransform))
  }

  /** The internal display is ready for the clones, with `reserve` pipes kept back. */
  ghost predicate InternalSet(e: Env, list: seq<Layer>, blitAll: bool, reserve: int, o: seq<Ovl>, dockIx: int) {
    && |o| <= MaxOf(1, e.maxHw) && ZStack(o) && (forall k :: 0 <= k < |o| ==> !o[k].external)
    && -1 <= dockIx < |o|
    && (if blitAll then dockIx == -1 && o == [Ovl(-1, 0, One(e.primaryTransform), false)]
        else SetUp(e, list, o, dockIx))
    && ((if blitAll then 0 <= reserve <= 2 else Limited(e, list, reserve)) ==>
          PipesOk(list, o, MAX_HW_OVERLAYS - 1 - reserve))
  }

  /** The internal display's overlays: planned, or just the framebuffer when everything is blitted. */
  method SetUpInternal(e: Env, list: seq<Layer>, blitAll: bool, ghost reserve: int)
    returns (o: seq<Ovl>, dockIx: int, marks: seq<Mark>)
    ensures InternalSet(e, list, blitAll, reserve, o, dockIx) && Marked(e, list, blitAll, marks)
  {
    if blitAll {
      o := [Ovl(-1, 0, if e.primaryTransform then 1 else 0, false)];
      dockIx, marks := -1, seq(|list|, _ => UNMARKED);
      assert HasZ(o, 0) by { assert o[0].zorder == 0; }
    } else {
      o, dockIx, marks := SetUpLayers(e, list, reserve);
      InternalStacked(e, list, o);
    }
  }

  /** The layer loop, and the framebuffer after it. */
  method SetUpLayers(e: Env, list: seq<Layer>, ghost reserve: int)
    returns (o: seq<Ovl>, dockIx: int, marks: seq<Mark>)
    ensures |o| <= MaxOf(1, e.maxHw) && SetUp(e, list, o, dockIx) && -1 <= dockIx < |o|
    ensures Marked(e, list, false, marks)
    ensures forall k :: 0 <= k < |o| ==> !o[k].external
    ensures Limited(e, list, reserve) ==> PipesOk(list, o, MAX_HW_OVERLAYS - 1 - reserve)
  {
    var z, fbZ, planned;
    planned, z, fbZ, dockIx, marks := PlanLayers(e, list);
    o, z := SetupFb(e, list, planned, z, fbZ);
    ChooseShape(e, list, |list|);
    ghost var acc := Choose(e, list, |list|).acc;
    KeptPipes(e, list, acc, planned, o);
    KeptDockable(list, planned, o, Base(e), dockIx);
    if Limited(e, list, reserve) {
      PlannedPipes(e, list, planned, reserve);
      InternalPipes(e, list, planned, o, reserve);
    }
  }

  lemma KeptDockable(list: seq<Layer>, o0: seq<Ovl>, o: seq<Ovl>, lo: nat, d: int)
    requires LargestDockable(list, o0, lo, d) && |o| == |o0| && forall k :: lo <= k < |o| ==> o[k] == o0[k]
    ensures LargestDockable(list, o, lo, d)
  {
  }

  /** What `hwc_prepare` may be told by the parts that are not modelled. */
  datatype Outcome = Outcome(blits: bool, mode: bool)

  datatype Policy = BlitDisabled | BlitDefault | BlitAll

  /** A frame is mirrored when the external display is on and not docked. */
  predicate Mirroring(t: ExtTransform) { t.enabled && !t.docking }

  /** The external display may be used for this frame. */
  predicate MayClone(protected: nat, ext: int, wanted: int) {
    (protected == 0 && ext > 0) || (wanted > 0 && ext >= wanted)
  }

  /**
    The overlays from `post2` on: while mirroring a copy of each internal one above them all, else
    at most the docked overlay `d`, or the dock image.
   */
  ghost predicate Clones(o: seq<Ovl>, post2: nat, mirror: bool, d: int)
    requires post2 <= |o| && -1 <= d < post2
  {
    if mirror then
      |o| <= 2 * post2 &&
      forall k :: post2 <= k < |o| ==>
        o[k] == Ovl(o[k - post2].layer, o[k - post2].zorder + post2, MAX_HW_OVERLAYS - 1 - (k - post2), true)
    else
      |o| <= post2 + 1 &&
      (|o| > post2 ==> o[post2] == Ovl(if d >= 0 then o[d].layer else -2, post2, MAX_HW_OVERLAYS - 1, true))
  }

  /** What the external display gets: clones, when docked of the largest dockable overlay. */
  ghost predicate ExternalOk(list: seq<Layer>, e: Env, o: seq<Ovl>, post2: nat, blitAll: bool)
    requires post2 <= |o|
  {
    exists d :: -1 <= d < post2 && Clones(o, post2, Mirroring(e.current), d)
                && if blitAll then d == -1 else LargestDockable(list, o[..post2], Base(e), d)
  }

  /** The overlays of both displays, and the transform that is left. */
  ghost predicate Cloned(o0: seq<Ovl>, current0: ExtTransform, may: bool, dockIx: int, forceDock: bool,
                         mode: bool, remode: bool, o: seq<Ovl>, current: ExtTransform)
    requires |o0| <= MAX_HW_OVERLAYS && -1 <= dockIx < |o0|
  {
    var something := dockIx >= 0 || forceDock;
    && |o0| <= |o| <= MAX_HW_OVERLAYS && o[..|o0|] == o0 && Clones(o, |o0|, Mirroring(current0), dockIx)
    && (!current0.enabled ==> o == o0)
    && (current0.enabled && current0.docking ==>
          && ZStack(o) && (|o| > |o0| <==> may && something && mode && |o0| < MAX_HW_OVERLAYS)
          && (|o| == |o0| || (|o| == |o0| + 1 && o[|o0|].ix == MAX_HW_OVERLAYS - 1)))
    && (Mirroring(current0) ==>
          && |o| == (if may && (mode || !remode) then MinOf(2 * |o0|, MAX_HW_OVERLAYS) else |o0|)
          && (2 * |o0| <= MAX_HW_OVERLAYS ==> ZStack(o)))
    && current == if current0.docking && current0.enabled && may && something && !mode
                  then current0.(enabled := false) else current0
  }

  /**
    `clone_external_layer`: the overlay, or the dock image, on the pipe kept back for the external
    display. A display that accepts no mode is switched off.
   */
  method CloneExternalLayer(o0: seq<Ovl>, src: Ovl, current0: ExtTransform, mode: bool)
    returns (o: seq<Ovl>, current: ExtTransform)
    requires |o0| <= MAX_HW_OVERLAYS && ZStack(o0)
    ensures current == if mode then current0 else current0.(enabled := false)
    ensures o == o0 + if mode && |o0| < MAX_HW_OVERLAYS then [Ovl(src.layer, |o0|, MAX_HW_OVERLAYS - 1, true)] else []
    ensures ZStack(o)
  {
    o, current := o0, current0;
    if !mode {
      current := current.(enabled := false);
    } else {
      var ok;
      ok, o := CloneLayer(o, src, |o0|);
      if ok {
        o := o[|o| - 1 := o[|o| - 1].(zorder := |o0|)];
        ZStackGrows(o0, o[|o0|]);
        assert o == o0 + [o[|o0|]];
      }
    }
  }

  /**
    The cloning part of `hwc_prepare`. `mode` tells whether the external display accepts a mode;
    `remode` whether it is asked for one while mirroring.
   */
  method CloneLayers(o0: seq<Ovl>, current0: ExtTransform, may: bool, dockIx: int, forceDock: bool,
                     mode: bool, remode: bool) returns (o: seq<Ovl>, current: ExtTransform)
    requires |o0| <= MAX_HW_OVERLAYS && ZStack(o0) && -1 <= dockIx < |o0|
    requires forall k :: 0 <= k < |o0| ==> !o0[k].external
    ensures Cloned(o0, current0, may, dockIx, forceDock, mode, remode, o, current)
  {
    o, current := o0, current0;
    if !current.enabled || !may { return; }
    if current.docking && dockIx >= 0 {
      o, current := CloneExternalLayer(o, o[dockIx], current, mode);
    } else if current.docking && forceDock {
      o, current := CloneExternalLayer(o, Ovl(-2, 0, 0, false), current, mode);
    } else if !current.docking {
      if remode && !mode { return; }
      o := MirrorAll(o0);
      if 2 * |o0| <= MAX_HW_OVERLAYS {
        ZStackDoubles(o0, o);
      }
    }
  }

  /**
    No overlay is asked of both displays at once: not within the frame, and not while the display
    that had it last still shows it. `actual` overlays really go to the external display.
   */
  predicate HandedOver(internal: int, ext: int, actual: int, wanted: int, lastInt: int, lastExt: int) {
    && 0 <= actual <= ext <= 2 && internal + ext <= MAX_HW_OVERLAYS
    && internal + lastExt <= MAX_HW_OVERLAYS && ext + lastInt <= MAX_HW_OVERLAYS
    && internal + wanted <= MAX_HW_OVERLAYS
  }

  /** The overlays of a frame: internal ones first, z-orders complete, and pipes in order. */
  ghost predicate Composed(list: seq<Layer>, e: Env, o: seq<Ovl>, post2: int, blitAll: bool) {
    && 0 <= post2 <= |o| <= MAX_HW_OVERLAYS && ZStack(o)
    && (!blitAll ==> Internal(e, list, o[..post2]))
    && (blitAll ==> post2 == 1 && o[0].layer == -1 && o[0].zorder == 0)
    && (!Mirroring(e.current) ==> PipesOk(list, o, MAX_HW_OVERLAYS - 1))
  }

  /** What holds once both displays have their overlays. */
  lemma FrameFacts(list: seq<Layer>, s: Settings, f: Frame, lastExt: int, lastInt: int,
                   o: seq<Ovl>, all: seq<Ovl>, now: ExtTransform, ext: int, blitAll: bool)
    requires Books(lastExt, lastInt) && Begun(s, f, list, lastExt, lastInt)
    requires ZStack(all) || (Mirroring(f.current) && 2 * |o| > MAX_HW_OVERLAYS)
    requires !blitAll ==> Internal(EnvOf(s, f), list, o)
    requires blitAll ==> o == [Ovl(-1, 0, One(s.primaryTransform), false)]
    requires (blitAll && 0 <= f.extWanted <= 2) || (!blitAll && Limited(EnvOf(s, f), list, f.extWanted)) ==>
      PipesOk(list, o, MAX_HW_OVERLAYS - 1 - f.extWanted)
    requires |all| <= MAX_HW_OVERLAYS
    requires |o| <= MaxOf(1, f.maxHw) && |o| <= |all| && all[..|o|] == o
    requires now == f.current || (now == f.current.(enabled := false) && all == o)
    requires !f.current.enabled ==> all == o && now == f.current
    requires f.current.enabled && f.current.docking ==>
      |all| == |o| || (|all| == |o| + 1 && MayClone(f.counts.protected, f.extOvls, f.extWanted)
                       && all[|o|].ix == MAX_HW_OVERLAYS - 1)
    requires Mirroring(f.current) ==> now == f.current
    requires Mirroring(f.current) ==>
      |all| == |o| || (MayClone(f.counts.protected, f.extOvls, f.extWanted) && |all| == MinOf(2 * |o|, MAX_HW_OVERLAYS))
    requires ext == if now.enabled || lastExt > 0 then |all| - |o| else f.extOvls
    ensures HandedOver(|o|, ext, |all| - |o|, f.extWanted, lastInt, lastExt)
    ensures Mirroring(f.current) ==> 2 * |o| <= MAX_HW_OVERLAYS
    ensures Composed(list, EnvOf(s, f), all, |o|, blitAll)
  {
    assert f.current.enabled && f.current.docking && |all| == |o| + 1 ==> f.extWanted == 1;
    if !Mirroring(f.current) {
      CloneFacts(list, o, all, f.current, f.extWanted);
    }
  }

  /** One of the first `post2` overlays shows a dockable layer. */
  predicate HasDockable(list: seq<Layer>, o: seq<Ovl>, post2: nat)
    requires post2 <= |o|
  {
    exists k :: 0 <= k < post2 && 0 <= o[k].layer < |list| && list[o[k].layer].dockable
  }

  /**
    What the external display can take of a frame, once it may: all overlays when mirroring, else one,
    for a docked layer or the dock image; nothing if it accepts no mode.
   */
  function Offered(s: Settings, list: seq<Layer>, f: Frame, mode: bool, lastDocking: bool,
                   o: seq<Ovl>, post2: nat): nat
    requires post2 <= |o|
  {
    if Mirroring(f.current) then (if mode || !lastDocking then post2 else 0)
    else One(f.current.enabled && mode && (HasDockable(list, o, post2) || s.forceDock))
  }

  /** How many overlays it gets. */
  function ExternalCount(s: Settings, list: seq<Layer>, f: Frame, mode: bool, lastDocking: bool,
                         o: seq<Ovl>, post2: nat): nat
    requires post2 <= |o|
  {
    if MayClone(f.counts.protected, f.extOvls, f.extWanted) then Offered(s, list, f, mode, lastDocking, o, post2) else 0
  }

  lemma DockedExactly(s: Settings, list: seq<Layer>, f: Frame, mode: bool, lastDocking: bool,
                      o: seq<Ovl>, all: seq<Ovl>, dockIx: int, blitAll: bool)
    requires |o| <= |all| && all[..|o|] == o && |o| <= MaxOf(1, f.maxHw) && -1 <= dockIx < |o|
    requires var may := MayClone(f.counts.protected, f.extOvls, f.extWanted);
             && (!f.current.enabled ==> all == o)
             && (Mirroring(f.current) ==> |o| <= 2 && |all| == if may && (mode || !lastDocking) then 2 * |o| else |o|)
             && (f.current.enabled && f.current.docking ==>
                   && |all| <= |o| + 1 && (may ==> f.maxHw < MAX_HW_OVERLAYS)
                   && (|all| > |o| <==> may && (dockIx >= 0 || s.forceDock) && mode && |o| < MAX_HW_OVERLAYS))
    requires if blitAll then dockIx == -1 && |o| == 1 && o[0].layer == -1
             else LargestDockable(list, o, 0, dockIx)
                  || (|o| > 0 && o[0].layer == -1 && LargestDockable(list, o, 1, dockIx))
    ensures |all| - |o| == ExternalCount(s, list, f, mode, lastDocking, all, |o|)
    ensures HasDockable(list, all, |o|) <==> dockIx >= 0
  {
    assert forall k :: 0 <= k < |o| ==> all[k] == o[k];
    assert HasDockable(list, all, |o|) <==> dockIx >= 0;
  }

  // ----- Pipes while mirroring -----

  /** The internal overlays, then their clones from the last pipe down. */
  ghost predicate CloneRow(o: seq<Ovl>, all: seq<Ovl>) {
    |all| == 2 * |o| && all[..|o|] == o && forall k :: |o| <= k < |all| ==> all[k].ix == MAX_HW_OVERLAYS - 1 - (k - |o|)
  }

  lemma MirrorRow(o: seq<Ovl>, all: seq<Ovl>, d: int)
    requires |all| == 2 * |o| && all[..|o|] == o && -1 <= d < |o| && Clones(all, |o|, true, d)
    ensures CloneRow(o, all)
  {
    forall k | |o| <= k < |all| ensures all[k].ix == MAX_HW_OVERLAYS - 1 - (k - |o|) {
      assert all[k] == Ovl(all[k - |o|].layer, all[k - |o|].zorder + |o|, MAX_HW_OVERLAYS - 1 - (k - |o|), true);
    }
  }

  /**
    The pipes of a mirrored frame: all exist, and GFX does not scale. They are distinct unless there
    are clones, and two layers that both need scaling are the whole picture.
   */
  ghost predicate MirrorPipes(list: seq<Layer>, e: Env, o: seq<Ovl>, post2: nat, blitAll: bool) {
    && (|o| == post2 || |o| == 2 * post2)
    && GfxUnscaled(list, o) && (forall k :: 0 <= k < |o| ==> 0 <= o[k].ix < MAX_HW_OVERLAYS)
    && (DistinctPipes(o, 0)
        <==> |o| == post2 || blitAll || e.useSgx || post2 != 2 || !AllScale(list, Choose(e, list, |list|).acc))
  }

  /** One of the two layers then gets the pipe after the last, which a clone has as well. */
  lemma MirrorPipesExactly(e: Env, list: seq<Layer>, o: seq<Ovl>, all: seq<Ovl>)
    requires Internal(e, list, o) && PipesSet(e, list, Choose(e, list, |list|).acc, o)
    requires e.useSgx ==> o != [] && o[0].layer == -1 && o[0].ix == One(e.primaryTransform)
    requires e.maxHw <= 2 - One(e.primaryTransform) && (all == o || CloneRow(o, all))
    ensures MirrorPipes(list, e, all, |o|, false)
  {
    ChooseShape(e, list, |list|);
    MirrorFirstPipes(e, list, o);
    if |all| == 2 * |o| && o != [] { ClonePipes(o, all); }
    MirrorGfx(list, o, all);
  }

  /** The framebuffer alone can always be mirrored. */
  lemma FbPipes(list: seq<Layer>, e: Env, o: seq<Ovl>, all: seq<Ovl>)
    requires o == [Ovl(-1, 0, One(e.primaryTransform), false)] && (all == o || CloneRow(o, all))
    ensures MirrorPipes(list, e, all, 1, true)
  {
    MirrorGfx(list, o, all);
    assert all[0] == o[0] && (|all| == 2 ==> all[1].ix == 3);
  }

  /** Clones never take the GFX pipe. */
  lemma MirrorGfx(list: seq<Layer>, o: seq<Ovl>, all: seq<Ovl>)
    requires GfxUnscaled(list, o) && |o| <= 2 && (all == o || CloneRow(o, all))
    requires forall k :: 0 <= k < |o| ==> 0 <= o[k].ix < MAX_HW_OVERLAYS
    ensures GfxUnscaled(list, all) && forall k :: 0 <= k < |all| ==> 0 <= all[k].ix < MAX_HW_OVERLAYS
  {
    forall k | 0 <= k < |o| ensures all[k] == o[k] && Scales(list, all, k) == Scales(list, o, k) {
      assert all[..|o|][k] == o[k];
    }
  }

  /** The clones take pipes 3 and 2, so only an internal overlay in pipe 2 can be in the way. */
  lemma ClonePipes(o: seq<Ovl>, all: seq<Ovl>)
    requires CloneRow(o, all) && |o| <= 2 && DistinctPipes(o, 0)
    requires forall k :: 0 <= k < |o| ==> 0 <= o[k].ix <= |o|
    ensures DistinctPipes(all, 0) <==> !(|o| == 2 && (o[0].ix == 2 || o[1].ix == 2))
  {
    assert forall k :: 0 <= k < |o| ==> all[k] == o[k];
    if |o| == 2 {
      assert all[0] == o[0] && all[1] == o[1] && all[2].ix == 3 && all[3].ix == 2;
    }
  }

  lemma MirrorFirstPipes(e: Env, list: seq<Layer>, o: seq<Ovl>)
    requires Internal(e, list, o) && PipesSet(e, list, Choose(e, list, |list|).acc, o)
    requires e.useSgx ==> o != [] && o[0].layer == -1 && o[0].ix == One(e.primaryTransform)
    requires e.maxHw <= 2 - One(e.primaryTransform)
    requires Choose(e, list, |list|).acc == [] || |o| <= e.maxHw
    ensures |o| <= 2 && DistinctPipes(o, 0) && forall k :: 0 <= k < |o| ==> 0 <= o[k].ix <= |o|
    ensures |o| == 2 ==> (o[0].ix == 2 || o[1].ix == 2
                          <==> !e.useSgx && AllScale(list, Choose(e, list, |list|).acc))
  {
    if e.useSgx {
      assert |ToPlanes(o)| == |o|;
    } else if |o| == 2 {
      TwoOverlays(e, list, o);
    }
  }

  /** Two overlays and no framebuffer: the GFX pipe stays unused exactly if both need scaling. */
  lemma TwoOverlays(e: Env, list: seq<Layer>, o: seq<Ovl>)
    requires Internal(e, list, o) && |o| == 2
    requires PipesSet(e, list, Choose(e, list, |list|).acc, o)
    requires !e.useSgx && !e.primaryTransform
    ensures o[0].ix == 2 || o[1].ix == 2 <==> AllScale(list, Choose(e, list, |list|).acc)
  {
    var acc := Choose(e, list, |list|).acc;
    ChooseShape(e, list, |list|);
    assert acc == [acc[0], acc[1]];
    assert 0 <= o[0].ix <= 2 && 0 <= o[1].ix <= 2 && o[0].ix != o[1].ix;
    if AllScale(list, acc) {
      assert acc[0] in acc && acc[1] in acc;
      assert Scales(list, o, 0) && Scales(list, o, 1);
    }
  }

  // ----- What the frame is left with -----

  /** The framebuffer is among the planes of the internal display. */
  predicate HasFb(o: seq<Ovl>, post2: nat)
    requires post2 <= |o|
  {
    exists k :: 0 <= k < post2 && o[k].layer < 0
  }

  /** The transform left in force: a docked display that accepts no mode is switched off. */
  function CurrentAfter(s: Settings, f0: Frame, something: bool, mode: bool): ExtTransform {
    if f0.current.docking && f0.current.enabled && MayClone(f0.counts.protected, f0.extOvls, f0.extWanted)
       && something && !mode
    then f0.current.(enabled := false) else f0.current
  }

  /**
    Who draws the framebuffer, in which colour order, and how the external display is left: if there
    is a framebuffer then either the blitter has filled it or SGX has to, never both and never neither.
   */
  ghost predicate Left(s: Settings, f0: Frame, list: seq<Layer>, policy: Policy, outcome: Outcome, f: Frame) {
    && 0 <= f.post2 <= |f.ovls|
    && (HasFb(f.ovls, f.post2)
        <==> !CanRenderAll(EnvOf(s, f0), f0.counts) || (policy == BlitAll && outcome.blits))
    && (f.useSgx <==> HasFb(f.ovls, f.post2) && !(policy != BlitDisabled && outcome.blits))
    && f.swapRb == (if policy == BlitAll && outcome.blits then false
                    else if HasFb(f.ovls, f.post2) then s.fbIsBgr
                    else Has(list, Of(KindBGR)))
    && f.current == CurrentAfter(s, f0, HasDockable(list, f.ovls, f.post2) || s.forceDock, outcome.mode)
    && f.counts == f0.counts && f.maxHw == f0.maxHw && f.maxScaling == f0.maxScaling
  }

  /** A framebuffer is set up exactly if SGX was to compose, or everything has been blitted. */
  lemma FbNeeded(e: Env, list: seq<Layer>, o: seq<Ovl>, d: int, all: seq<Ovl>, blitAll: bool)
    requires if blitAll then o == [Ovl(-1, 0, One(e.primaryTransform), false)] else SetUp(e, list, o, d)
    requires |o| <= |all| && all[..|o|] == o
    ensures HasFb(all, |o|) <==> e.useSgx || blitAll
  {
    assert forall k :: 0 <= k < |o| ==> all[k] == o[k];
    if blitAll || e.useSgx {
      assert all[0].layer == -1;
    }
  }

  /** The framebuffer comes first, and every other overlay shows a layer. */
  lemma InternalLayers(e: Env, list: seq<Layer>, o: seq<Ovl>)
    requires Internal(e, list, o)
    ensures |o| == Base(e) + |Choose(e, list, |list|).acc| && (e.useSgx ==> o[0].layer < 0)
    ensures forall k :: Base(e) <= k < |o| ==> o[k].layer == Choose(e, list, |list|).acc[k - Base(e)] < |list|
  {
    ChooseShape(e, list, |list|);
    if e.useSgx {
      assert |ToPlanes(o)| == |o| && ToPlanes(o)[0] == ToPlane(o[0]);
      forall k | 1 <= k < |o| ensures o[k].layer == Choose(e, list, |list|).acc[k - 1] < |list| {
        assert ToPlanes(o)[k] == ToPlane(o[k]);
      }
    }
  }

  /** An overlay of the internal display shows the framebuffer, or a layer that passed its own test. */
  lemma PlaneShows(e: Env, list: seq<Layer>, o: seq<Ovl>, k: nat)
    requires Internal(e, list, o) && k < |o|
    ensures var l := o[k].layer;
            if l < 0 then e.useSgx
            else l < |list| && CanRender(e, list[l]) && (e.forceSgx > 0 ==> KeptFromSgx(e, list[l]))
  {
    var acc := Choose(e, list, |list|).acc;
    AcceptedRender(e, list, |list|);
    if e.useSgx {
      assert ToPlanes(o)[k] == ToPlane(o[k]);
      if k > 0 { assert ToPlanes(o)[k].layer == acc[k - 1] < |list|; }
    } else {
      assert acc[k] < |list| && CanRender(e, list[acc[k]]);
    }
  }

  /**
    The display can show the layer as an overlay: no BGR on a TV, nothing but videos turned, or beside
    a framebuffer if so configured, only special layers if SGX is forced; and if colour order matters,
    in the order that the display is set to.
   */
  predicate Suits(s: Settings, current: ExtTransform, hasFb: bool, swapRb: bool, l: Layer) {
    var outside := current.enabled && (current.docking ==> l.dockable);
    && l.valid
    && (s.onTv || (s.extOnTv && outside) ==> l.kind != KindBGR)
    && (outside && (current.rotation != 0 || current.hflip) ==> l.kind == KindNV12)
    && (s.nv12Only && hasFb ==> l.kind == KindNV12)
    && (s.forceSgx > 0 ==> l.protected || l.upscaledNV12 || (current.docking && outside))
    && (s.rgbOrder && l.kind != KindNV12 ==> (l.kind == KindBGR <==> swapRb))
  }

  /** Every overlay of a prepared frame suits the display, and so does the framebuffer. */
  lemma OverlaysSuit(s: Settings, f0: Frame, list: seq<Layer>, lastExt: int, lastInt: int, policy: Policy,
                     outcome: Outcome, f: Frame, k: nat)
    requires Begun(s, f0, list, lastExt, lastInt) && Left(s, f0, list, policy, outcome, f)
    requires !(policy == BlitAll && outcome.blits) && k < f.post2
    requires Internal(EnvOf(s, f0), list, f.ovls[..f.post2])
    ensures var l := f.ovls[k].layer;
            if l < 0 then f.swapRb == s.fbIsBgr
            else l < |list| && Suits(s, f0.current, HasFb(f.ovls, f.post2), f.swapRb, list[l])
  {
    PlaneShows(EnvOf(s, f0), list, f.ovls[..f.post2], k);
    StatsFind(list, s.primaryTransform, Of(KindBGR));
  }

  /** The memory that the layers shown by overlays take. */
  function MemoryShown(list: seq<Layer>, o: seq<Ovl>): nat {
    if o == [] then 0
    else
      var l := o[|o| - 1].layer;
      MemoryShown(list, o[..|o| - 1]) + if 0 <= l < |list| then list[l].mem else 0
  }

  lemma {:induction false} MemoryShownIs(list: seq<Layer>, o: seq<Ovl>, acc: seq<nat>, lo: nat, n: nat)
    requires |o| == lo + |acc| && n <= |acc| && lo <= 1 && (lo == 1 ==> o[0].layer < 0)
    requires forall j :: 0 <= j < |acc| ==> acc[j] < |list| && o[lo + j].layer == acc[j]
    ensures MemoryShown(list, o[..lo + n]) == MemoryOf(list, acc[..n])
  {
    var m := lo + n;
    if n > 0 {
      MemoryShownIs(list, o, acc, lo, n - 1);
      assert o[..m][..m - 1] == o[..m - 1] && acc[..n][..n - 1] == acc[..n - 1];
    } else if lo == 1 {
      assert o[..1] == [o[0]] && [o[0]][..0] == [];
    }
  }

  /** Together they fit into the memory slot. */
  lemma OverlaysFit(s: Settings, f0: Frame, list: seq<Layer>, o: seq<Ovl>)
    requires Internal(EnvOf(s, f0), list, o)
    ensures MemoryShown(list, o) <= s.slot
  {
    var e := EnvOf(s, f0);
    var acc := Choose(e, list, |list|).acc;
    AcceptedFit(e, list, |list|);
    InternalLayers(e, list, o);
    forall j | 0 <= j < |acc| ensures o[Base(e) + j].layer == acc[j] {
      assert o[Base(e) + j].layer == acc[Base(e) + j - Base(e)];
    }
    MemoryShownIs(list, o, acc, Base(e), |acc|);
    assert o[..|o|] == o && acc[..|acc|] == acc;
  }

  /** What a prepared frame keeps to, for both displays. */
  ghost predicate Prepared(s: Settings, f0: Frame, list: seq<Layer>, blitAll: bool, mode: bool, lastDocking: bool,
                           lastExt: int, lastInt: int, f: Frame) {
    && f.extWanted == f0.extWanted
    && Composed(list, EnvOf(s, f0), f.ovls, f.post2, blitAll)
    && ExternalOk(list, EnvOf(s, f0), f.ovls, f.post2, blitAll)
    && HandedOver(f.post2, f.extOvls, |f.ovls| - f.post2, f0.extWanted, lastInt, lastExt)
    && |f.ovls| - f.post2 == ExternalCount(s, list, f0, mode, lastDocking, f.ovls, f.post2)
    && (Mirroring(f0.current) ==> MirrorPipes(list, EnvOf(s, f0), f.ovls, f.post2, blitAll))
  }

  /** The part of `hwc_prepare` after the layer loop and the blits. */
  method CompleteFrame(s: Settings, f0: Frame, list: seq<Layer>, o: seq<Ovl>, dockIx: int, policy: Policy,
                       outcome: Outcome, lastDocking: bool, lastExt: int, lastInt: int) returns (f: Frame)
    requires Books(lastExt, lastInt) && Begun(s, f0, list, lastExt, lastInt)
    requires InternalSet(EnvOf(s, f0), list, policy == BlitAll && outcome.blits, f0.extWanted, o, dockIx)
    ensures Prepared(s, f0, list, policy == BlitAll && outcome.blits, outcome.mode, lastDocking, lastExt, lastInt, f)
    ensures Left(s, f0, list, policy, outcome, f)
  {
    var useSgx, swapRb := f0.useSgx, f0.swapRb;
    var blitAll := policy == BlitAll && outcome.blits;
    if blitAll {
      useSgx := false;
      swapRb := false;
    }
    var all, now, ext := BothDisplays(s, f0, list, o, dockIx, blitAll, outcome.mode, lastDocking, lastExt, lastInt);
    if policy == BlitDefault && useSgx && outcome.blits {
      useSgx := false;
    }
    f := f0.(useSgx := useSgx, swapRb := swapRb, post2 := |o|, ovls := all, current := now, extOvls := ext);
    LeftIs(s, f0, list, policy, outcome, lastExt, lastInt, f);
  }

  lemma LeftIs(s: Settings, f0: Frame, list: seq<Layer>, policy: Policy, outcome: Outcome, lastExt: int, lastInt: int,
               f: Frame)
    requires Begun(s, f0, list, lastExt, lastInt) && 0 <= f.post2 <= |f.ovls|
    requires HasFb(f.ovls, f.post2) <==> f0.useSgx || (policy == BlitAll && outcome.blits)
    requires f.current == CurrentAfter(s, f0, HasDockable(list, f.ovls, f.post2) || s.forceDock, outcome.mode)
    requires f.useSgx <==> f0.useSgx && !(policy != BlitDisabled && outcome.blits)
    requires f.swapRb <==> f0.swapRb && !(policy == BlitAll && outcome.blits)
    requires f.counts == f0.counts && f.maxHw == f0.maxHw && f.maxScaling == f0.maxScaling
    ensures Left(s, f0, list, policy, outcome, f)
  {
    StatsFind(list, s.primaryTransform, Of(KindBGR));
  }

  /** The overlays of the internal display, then those of the external one. */
  method BothDisplays(s: Settings, f0: Frame, list: seq<Layer>, o: seq<Ovl>, dockIx: int, blitAll: bool, mode: bool,
                      lastDocking: bool, lastExt: int, lastInt: int)
    returns (all: seq<Ovl>, now: ExtTransform, ext: int)
    requires Books(lastExt, lastInt) && Begun(s, f0, list, lastExt, lastInt)
    requires InternalSet(EnvOf(s, f0), list, blitAll, f0.extWanted, o, dockIx)
    ensures Composed(list, EnvOf(s, f0), all, |o|, blitAll)
    ensures ExternalOk(list, EnvOf(s, f0), all, |o|, blitAll)
    ensures HandedOver(|o|, ext, |all| - |o|, f0.extWanted, lastInt, lastExt)
    ensures |all| - |o| == ExternalCount(s, list, f0, mode, lastDocking, all, |o|)
    ensures Mirroring(f0.current) ==> MirrorPipes(list, EnvOf(s, f0), all, |o|, blitAll)
    ensures HasFb(all, |o|) <==> f0.useSgx || blitAll
    ensures now == CurrentAfter(s, f0, HasDockable(list, all, |o|) || s.forceDock, mode)
  {
    EnoughPipes(s, f0, list, lastExt, lastInt, o);
    all, now := CloneLayers(o, f0.current, MayClone(f0.counts.protected, f0.extOvls, f0.extWanted), dockIx,
                            s.forceDock, mode, lastDocking);
    ext := if now.enabled || lastExt > 0 then |all| - |o| else f0.extOvls;
    StackFacts(s, f0, list, o, dockIx, blitAll, mode, lastDocking, lastExt, lastInt, all, now, ext);
    ExternalFacts(s, f0, list, o, dockIx, blitAll, mode, lastDocking, lastExt, lastInt, all, now);
  }

  lemma StackFacts(s: Settings, f0: Frame, list: seq<Layer>, o: seq<Ovl>, dockIx: int, blitAll: bool, mode: bool,
                   lastDocking: bool, lastExt: int, lastInt: int, all: seq<Ovl>, now: ExtTransform, ext: int)
    requires Books(lastExt, lastInt) && Begun(s, f0, list, lastExt, lastInt) && |o| <= MAX_HW_OVERLAYS
    requires InternalSet(EnvOf(s, f0), list, blitAll, f0.extWanted, o, dockIx)
    requires Cloned(o, f0.current, MayClone(f0.counts.protected, f0.extOvls, f0.extWanted), dockIx,
                    s.forceDock, mode, lastDocking, all, now)
    requires ext == if now.enabled || lastExt > 0 then |all| - |o| else f0.extOvls
    ensures Composed(list, EnvOf(s, f0), all, |o|, blitAll)
    ensures HandedOver(|o|, ext, |all| - |o|, f0.extWanted, lastInt, lastExt)
  {
    EnoughPipes(s, f0, list, lastExt, lastInt, o);
    FrameFacts(list, s, f0, lastExt, lastInt, o, all, now, ext, blitAll);
  }

  lemma ExternalFacts(s: Settings, f0: Frame, list: seq<Layer>, o: seq<Ovl>, dockIx: int, blitAll: bool, mode: bool,
                      lastDocking: bool, lastExt: int, lastInt: int, all: seq<Ovl>, now: ExtTransform)
    requires Books(lastExt, lastInt) && Begun(s, f0, list, lastExt, lastInt) && |o| <= MAX_HW_OVERLAYS
    requires InternalSet(EnvOf(s, f0), list, blitAll, f0.extWanted, o, dockIx)
    requires Cloned(o, f0.current, MayClone(f0.counts.protected, f0.extOvls, f0.extWanted), dockIx,
                    s.forceDock, mode, lastDocking, all, now)
    ensures ExternalOk(list, EnvOf(s, f0), all, |o|, blitAll)
    ensures |all| - |o| == ExternalCount(s, list, f0, mode, lastDocking, all, |o|)
    ensures Mirroring(f0.current) ==> MirrorPipes(list, EnvOf(s, f0), all, |o|, blitAll)
    ensures HasFb(all, |o|) <==> f0.useSgx || blitAll
    ensures now == CurrentAfter(s, f0, HasDockable(list, all, |o|) || s.forceDock, mode)
  {
    EnoughPipes(s, f0, list, lastExt, lastInt, o);
    assert all[..|o|] == o;
    assert Clones(all, |o|, Mirroring(f0.current), dockIx);
    DockedExactly(s, list, f0, mode, lastDocking, o, all, dockIx, blitAll);
    FbNeeded(EnvOf(s, f0), list, o, dockIx, all, blitAll);
    if Mirroring(f0.current) { MirrorFacts(EnvOf(s, f0), list, o, all, dockIx, blitAll); }
  }

  /** The pipes of a mirrored frame, with or without clones. */
  lemma MirrorFacts(e: Env, list: seq<Layer>, o: seq<Ovl>, all: seq<Ovl>, d: int, blitAll: bool)
    requires if blitAll then o == [Ovl(-1, 0, One(e.primaryTransform), false)] else SetUp(e, list, o, d)
    requires e.maxHw <= 2 - One(e.primaryTransform) && -1 <= d < |o|
    requires all == o || (|all| == 2 * |o| && all[..|o|] == o && Clones(all, |o|, true, d))
    ensures MirrorPipes(list, e, all, |o|, blitAll)
  {
    if |all| > |o| { MirrorRow(o, all, d); }
    if blitAll { FbPipes(list, e, o, all); } else { MirrorPipesExactly(e, list, o, all); }
  }

  lemma EnoughPipes(s: Settings, f: Frame, list: seq<Layer>, lastExt: int, lastInt: int, o: seq<Ovl>)
    requires Books(lastExt, lastInt) && Begun(s, f, list, lastExt, lastInt) && |o| <= MaxOf(1, f.maxHw)
    ensures |o| <= MAX_HW_OVERLAYS
    ensures Mirroring(f.current) ==> |o| <= 2
    ensures Mirroring(f.current) && f.extOvls == f.extWanted ==> MayClone(f.counts.protected, f.extOvls, f.extWanted)
  {
  }

  /** Docking adds at most one overlay, on the pipe that was kept back. */
  lemma CloneFacts(list: seq<Layer>, o: seq<Ovl>, all: seq<Ovl>, t: ExtTransform, wanted: int)
    requires |o| <= |all| && all[..|o|] == o && wanted >= 0 && !Mirroring(t)
    requires t.enabled ==>
      |all| == |o| || (|all| == |o| + 1 && wanted == 1 && all[|o|].ix == MAX_HW_OVERLAYS - 1)
    requires !t.enabled ==> all == o
    ensures PipesOk(list, o, MAX_HW_OVERLAYS - 1 - wanted) ==> PipesOk(list, all, MAX_HW_OVERLAYS - 1)
  {
    forall k | 0 <= k < |o| ensures all[k] == o[k] {
      assert all[..|o|][k] == o[k];
    }
    assert forall k :: 0 <= k < |o| ==> Scales(list, all, k) == Scales(list, o, k);
  }

  /** The two flags being decided play no part in the decision. */
  lemma FlagsAside(e: Env, c: Counts, useSgx: bool, swapRb: bool)
    ensures CanRenderAll(e.(useSgx := useSgx, swapRb := swapRb), c) == CanRenderAll(e, c)
  {
  }
}
