/** What the planner's results mean: pictures, pipes while mirroring, and overlays over time. */
module Frames {
  import opened Pixels
  import opened Planner
  import opened Planes
  import opened Device

  // ----- The picture -----

  lemma InternalPlanes(e: Env, list: seq<Layer>, o: seq<Ovl>)
    requires Internal(e, list, o)
    ensures Stacked(ToPlanes(o))
    ensures forall k :: 0 <= k < |o| && ToPlanes(o)[k].OverlayPlane? ==> ToPlanes(o)[k].layer < |list|
  {
    InternalStacked(e, list, o);
    ChooseShape(e, list, |list|);
    var ps := ToPlanes(o);
    assert forall k :: 0 <= k < |o| ==> ps[k].zorder == o[k].zorder;
    forall z | 0 <= z < |ps| ensures HasPlane(ps, z) {
      assert HasZ(o, z);
      var k :| 0 <= k < |o| && o[k].zorder == z;
      assert ps[k].zorder == z;
    }
  }

  lemma {:induction false} OverlaysOnly(e: Env, list: seq<Layer>, at: seq<Shown>, o: seq<Ovl>, fb: Pixel, z: nat)
    requires Internal(e, list, o) && !e.useSgx && |at| == |list| && z <= |o|
    requires forall j :: 0 <= j < |Choose(e, list, |list|).acc| ==> Choose(e, list, |list|).acc[j] < |list|
    requires Stacked(ToPlanes(o))
    requires forall k :: 0 <= k < |o| && ToPlanes(o)[k].OverlayPlane? ==> ToPlanes(o)[k].layer < |list|
    ensures Display(list, at, fb, ToPlanes(o), z)
            == PaintAcc(list, at, Choose(e, list, |list|).acc, 0, z, CLEAR)
  {
    if z > 0 {
      OverlaysOnly(e, list, at, o, fb, z - 1);
      assert ToPlanes(o)[z - 1] == OverlayPlane(Choose(e, list, |list|).acc[z - 1], z - 1);
    }
  }

  /**
    Main result: the internal display shows the painter's composition of the whole list, whether
    or not there is a framebuffer. Without one this is so because no layer slips through.
   */
  lemma DisplayShowsList(e: Env, list: seq<Layer>, at: seq<Shown>, o: seq<Ovl>)
    requires Internal(e, list, o) && Consistent(list, at)
    requires e.useSgx || AllOverlays(e, Stats(list, e.primaryTransform, |list|))
    requires !e.useSgx ==> forall i :: 0 <= i < |list| ==> !SlipsThrough(e, list[i])
    ensures Stacked(ToPlanes(o))
    ensures forall k :: 0 <= k < |o| && ToPlanes(o)[k].OverlayPlane? ==> ToPlanes(o)[k].layer < |list|
    ensures Display(list, at, FbContent(e, list, at, |list|), ToPlanes(o), |o|) == PaintList(list, at, |list|)
  {
    var fb := FbContent(e, list, at, |list|);
    InternalPlanes(e, list, o);
    if e.useSgx {
      SplitPreservesPicture(e, list, at, WithFramebuffer(Choose(e, list, |list|)), ToPlanes(o));
    } else {
      ChooseShape(e, list, |list|);
      AllChosen(e, list, |list|);
      OverlaysOnly(e, list, at, o, fb, |o|);
      AllOverlaysPicture(e, list, at, |list|);
    }
  }

  // ----- Pipes while mirroring -----

  /** Mirroring, with nothing else in the way. */
  const MIRRORED := Settings(ExtTransform(0, false, false, true), ExtTransform(0, false, true, false), false, false,
                             false, false, false, false, 0, false, 100)

  /** A scaled layer. */
  const ZOOMED := Layer(true, KindRGB, false, true, false, false, false, 0, 1)

  lemma TwiceStats(l: Layer, list: seq<Layer>)
    requires list == [l, l] && l.valid && l.kind == KindRGB && l.scaled && !l.dockable && !l.protected && l.mem == 0
    ensures Stats(list, false, 2) == Counts(2, 2, 2, 2, 0, 0, 0, 0, 0)
  {
    assert Stats(list, false, 1) == AddLayer(Stats(list, false, 0), l, false);
    assert Stats(list, false, 2) == AddLayer(Stats(list, false, 1), l, false);
  }

  lemma ZoomedChosen(e: Env, list: seq<Layer>)
    requires list == [ZOOMED, ZOOMED] && e.maxHw == 2 && !e.useSgx && e.forceSgx == 0 && e.slot == 100
    requires e.current == MIRRORED.mirror && !e.rgbOrder && !e.nv12Only
    ensures Choose(e, list, 2).acc == [0, 1]
  {
    assert Choose(e, list, 0) == Plan([], 0, -1);
    assert Accepts(e, Choose(e, list, 0), ZOOMED) && Choose(e, list, 1) == Plan([0], 0, -1);
    assert Accepts(e, Choose(e, list, 1), ZOOMED);
  }

  /** The decisions for two scaled layers while mirroring, when nothing was shown before. */
  lemma ZoomedBegun(f: Frame, list: seq<Layer>)
    requires list == [ZOOMED, ZOOMED] && Begun(MIRRORED, f, list, 0, 0)
    requires f.current == MIRRORED.mirror
    ensures !f.useSgx && f.maxHw == f.maxScaling == f.extOvls == f.extWanted == 2 && Mirroring(f.current)
    ensures Choose(EnvOf(MIRRORED, f), list, 2).acc == [0, 1]
  {
    TwiceStats(ZOOMED, list);
    ZoomedChosen(EnvOf(MIRRORED, f), list);
  }

  /**
    Two scaled layers, mirrored: nothing is left for the GFX pipe, so an internal overlay takes pipe 2,
    which the second clone has as well.
   */
  method MirrorCollision(d: HwcDevice) returns (ghost begun: Frame)
    requires d.settings == MIRRORED && d.lastExt == d.lastInt == 0
    modifies d
    ensures d.frame.post2 == 2 && |d.frame.ovls| == 4 && !DistinctPipes(d.frame.ovls, 0)
    ensures begun.maxHw == begun.maxScaling == 2 && !begun.useSgx
  {
    var list := [ZOOMED, ZOOMED];
    var marks;
    begun, marks := d.Prepare(list, BlitDisabled, Outcome(false, true), false);
    ZoomedBegun(begun, list);
    assert |d.frame.ovls[..d.frame.post2]| == |Choose(EnvOf(MIRRORED, begun), list, 2).acc|;
  }

  // ----- A layer that is shown nowhere -----

  /** Docked upside down. */
  const TURNED := Settings(ExtTransform(2, false, true, true), ExtTransform(0, false, false, false), false, false,
                           false, true, false, false, 0, false, 100)

  const VIDEO_LAYER := Layer(true, KindNV12, false, false, true, false, false, 0, 1)
  const UI_LAYER := Layer(true, KindRGB, false, false, true, false, false, 0, 1)

  /** The decisions for a video and an RGB layer, both dockable, when nothing was shown before. */
  lemma TurnedBegun(f: Frame, list: seq<Layer>)
    requires list == [VIDEO_LAYER, UI_LAYER] && Begun(TURNED, f, list, 0, 0) && f.current == TURNED.dock
    ensures !f.useSgx && 1 !in Choose(EnvOf(TURNED, f), list, 2).acc
    ensures SlipsThrough(EnvOf(TURNED, f), UI_LAYER)
  {
    var e := EnvOf(TURNED, f);
    ExampleStats(VIDEO_LAYER, UI_LAYER, list);
    ExampleRefused(e, UI_LAYER);
    LostStaysLost(e, list, 1, 2);
  }

  /** There is no framebuffer, and no overlay shows the second layer. */
  method LayerLost(d: HwcDevice) returns (ghost begun: Frame)
    requires d.settings == TURNED && d.lastExt == d.lastInt == 0
    modifies d
    ensures !begun.useSgx && d.frame.post2 <= 1 && d.frame.post2 <= |d.frame.ovls|
    ensures forall k :: 0 <= k < d.frame.post2 ==> d.frame.ovls[k].layer == 0
  {
    var list, marks := [VIDEO_LAYER, UI_LAYER], [];
    begun, marks := d.Prepare(list, BlitDisabled, Outcome(false, true), false);
    TurnedBegun(begun, list);
    ghost var o := d.frame.ovls[..d.frame.post2];
    OnlyFirst(EnvOf(TURNED, begun), list, o);
    assert forall k :: 0 <= k < d.frame.post2 ==> d.frame.ovls[k] == o[k];
  }

  lemma OnlyFirst(e: Env, list: seq<Layer>, o: seq<Ovl>)
    requires Internal(e, list, o) && !e.useSgx && |list| == 2
    requires 1 !in Choose(e, list, 2).acc
    ensures |o| <= 1 && forall k :: 0 <= k < |o| ==> o[k].layer == 0
  {
    ChooseShape(e, list, 2);
    var acc := Choose(e, list, 2).acc;
    forall k | 0 <= k < |acc| ensures acc[k] == 0 {
      assert acc[k] in acc;
    }
    if |acc| >= 2 {
      OutOfOrder(acc);
    }
  }

  lemma OutOfOrder(acc: seq<nat>)
    requires |acc| >= 2 && forall k :: 0 <= k < |acc| ==> acc[k] == 0
    ensures exists i, j :: 0 <= i < j < |acc| && acc[i] >= acc[j]
  {
    assert 0 <= 0 < 1 < |acc| && acc[0] >= acc[1];
  }

  // ----- Overlays over time -----

  /**
    One prepared and posted frame: what it used, recorded, wanted and was granted; `offered` is what
    the external display can take.
   */
  datatype Turn = Turn(internal: int, recorded: int, external: int, wanted: int, granted: int, offered: int)

  /** How a frame follows on the last one, as `Prepare` and `Set` specify it. */
  ghost predicate Follows(last: Turn, t: Turn) {
    && HandedOver(t.internal, t.recorded, t.external, t.wanted, last.internal, last.recorded)
    && t.granted == MinOf(MAX_HW_OVERLAYS - last.internal, t.wanted)
    && (t.granted == t.wanted ==> t.external == if t.wanted == 0 then 0 else t.offered)
  }

  /** The device's books are those of the turn. */
  ghost predicate Booked(d: HwcDevice, t: Turn)
    reads d
  {
    d.lastInt == t.internal && d.lastExt == t.recorded
  }

  /** The turn of a prepared frame. */
  ghost function TurnOf(s: Settings, list: seq<Layer>, begun: Frame, mode: bool, lastDocking: bool, f: Frame): Turn
    requires 0 <= f.post2 <= |f.ovls|
  {
    Turn(f.post2, f.extOvls, |f.ovls| - f.post2, begun.extWanted, begun.extOvls,
         Offered(s, list, begun, mode, lastDocking, f.ovls, f.post2))
  }

  lemma PreparedFollows(s: Settings, begun: Frame, list: seq<Layer>, blitAll: bool, mode: bool, lastDocking: bool,
                        last: Turn, f: Frame)
    requires Begun(s, begun, list, last.recorded, last.internal) && Books(last.recorded, last.internal)
    requires Prepared(s, begun, list, blitAll, mode, lastDocking, last.recorded, last.internal, f)
    ensures Follows(last, TurnOf(s, list, begun, mode, lastDocking, f))
  {
  }

  /** Posting a prepared frame is a turn. */
  method Post(d: HwcDevice, ghost begun: Frame, ghost list: seq<Layer>, ghost blitAll: bool, ghost mode: bool,
              ghost lastDocking: bool, ghost last: Turn) returns (ghost t: Turn)
    requires Books(d.lastExt, d.lastInt) && Booked(d, last)
    requires Begun(d.settings, begun, list, d.lastExt, d.lastInt)
    requires Prepared(d.settings, begun, list, blitAll, mode, lastDocking, d.lastExt, d.lastInt, d.frame)
    modifies d`lastExt, d`lastInt
    ensures Books(d.lastExt, d.lastInt) && Booked(d, t) && Follows(last, t)
    ensures t == TurnOf(d.settings, list, begun, mode, lastDocking, d.frame)
  {
    PreparedFollows(d.settings, begun, list, blitAll, mode, lastDocking, last, d.frame);
    t := TurnOf(d.settings, list, begun, mode, lastDocking, d.frame);
    d.Set();
  }

  /** Preparing and posting a frame is a turn. */
  method PostFrame(d: HwcDevice, list: seq<Layer>, policy: Policy, outcome: Outcome, lastDocking: bool,
                   ghost last: Turn)
    returns (ghost t: Turn, ghost begun: Frame)
    requires Sound(d.settings) && Books(d.lastExt, d.lastInt) && Booked(d, last)
    modifies d
    ensures d.settings == old(d.settings) && Books(d.lastExt, d.lastInt) && Booked(d, t)
    ensures Begun(d.settings, begun, list, old(d.lastExt), old(d.lastInt)) && 0 <= d.frame.post2 <= |d.frame.ovls|
    ensures Follows(last, t) && t == TurnOf(d.settings, list, begun, outcome.mode, lastDocking, d.frame)
  {
    var marks;
    begun, marks := d.Prepare(list, policy, outcome, lastDocking);
    t := Post(d, begun, list, policy == BlitAll && outcome.blits, outcome.mode, lastDocking, last);
  }

  ghost predicate TurnRun(ts: seq<Turn>) {
    && ts != [] && ts[0] == Turn(0, 0, 0, 0, 0, 0)
    && forall n :: 0 <= n < |ts| - 1 ==> Follows(ts[n], ts[n + 1])
  }

  /**
    Main result: at every moment of every run, the overlays of a frame and those the other display
    still shows from the frame before fit into the four there are; and cloning that was wanted in
    one frame is granted in full in the next one that wants no more, which means that the external
    display really gets all it can take.
   */
  lemma OverlaysNeverShared(ts: seq<Turn>, n: nat)
    requires TurnRun(ts) && n < |ts| - 1
    ensures ts[n + 1].internal + ts[n + 1].external <= MAX_HW_OVERLAYS
    ensures ts[n + 1].internal + ts[n].external <= MAX_HW_OVERLAYS
    ensures ts[n + 1].external + ts[n].internal <= MAX_HW_OVERLAYS
    ensures ts[n + 1].wanted <= ts[n].wanted ==>
      && ts[n + 1].granted == ts[n + 1].wanted
      && ts[n + 1].external == if ts[n + 1].wanted == 0 then 0 else ts[n + 1].offered
  {
    assert Follows(ts[n], ts[n + 1]);
    if n > 0 {
      assert Follows(ts[n - 1], ts[n]);
    }
  }

  // ----- What the external display gets -----

  /** Docking wants one overlay if there is a dockable layer or a forced dock image, mirroring two. */
  lemma WantedFor(s: Settings, f: Frame, list: seq<Layer>, lastExt: int, lastInt: int)
    requires Begun(s, f, list, lastExt, lastInt)
    ensures f.extWanted
            == if s.dock.enabled && (Has(list, Dockable) || s.forceDock) then 1 else if s.mirror.enabled then 2 else 0
    ensures f.counts.protected > 0 <==> Has(list, Protected)
  {
    StatsFind(list, s.primaryTransform, Dockable);
    StatsFind(list, s.primaryTransform, Protected);
  }

  /** Protected layers go to the external display only if it gets all the overlays it wants. */
  lemma ProtectedAllOrNothing(s: Settings, f0: Frame, list: seq<Layer>, blitAll: bool, mode: bool, lastDocking: bool,
                              lastExt: int, lastInt: int, f: Frame)
    requires Begun(s, f0, list, lastExt, lastInt) && Has(list, Protected)
    requires Prepared(s, f0, list, blitAll, mode, lastDocking, lastExt, lastInt, f)
    ensures |f.ovls| > f.post2 ==> f0.extOvls == f0.extWanted > 0
  {
    WantedFor(s, f0, list, lastExt, lastInt);
  }

  /** The overlays that the settings make every frame with a dockable layer want. */
  function Asks(s: Settings): nat { if s.dock.enabled then 1 else if s.mirror.enabled then 2 else 0 }

  /** What the last frame leaves is all that is asked for, or something, if nothing is protected. */
  predicate Room(s: Settings, list: seq<Layer>, lastInt: int) {
    lastInt + Asks(s) <= MAX_HW_OVERLAYS || (lastInt < MAX_HW_OVERLAYS && !Has(list, Protected))
  }

  /** What the external display shows of a frame that it has room for. */
  ghost predicate ServedWell(s: Settings, list: seq<Layer>, mode: bool, lastDocking: bool, f: Frame) {
    && 0 <= f.post2 <= |f.ovls|
    && (s.dock.enabled && HasDockable(list, f.ovls, f.post2) && mode ==> ServesLargest(list, f.ovls, f.post2))
    && (!s.dock.enabled && s.mirror.enabled && (mode || !lastDocking) ==> ServesAll(f.ovls, f.post2))
  }

  /**
    Main result: from the second frame on, the external display is served. Docked, a frame with an
    overlay for a dockable layer shows the largest one there; mirrored, it shows a copy of everything.
   */
  method SecondFrameServed(d: HwcDevice, list: seq<Layer>, policy: Policy, outcome: Outcome, lastDocking: bool,
                           list': seq<Layer>, policy': Policy, outcome': Outcome, lastDocking': bool)
    requires Sound(d.settings) && Books(d.lastExt, d.lastInt)
    requires d.settings.dock.enabled ==> Has(list, Dockable) && Has(list', Dockable)
    modifies d
    ensures ServedWell(d.settings, list', outcome'.mode, lastDocking', d.frame)
  {
    ghost var last := Turn(d.lastInt, d.lastExt, 0, 0, 0, 0);
    ghost var t, begun;
    t, begun := PostFrame(d, list, policy, outcome, lastDocking, last);
    WantedFor(d.settings, begun, list, last.recorded, last.internal);
    ServeFrame(d, list', policy', outcome', lastDocking');
  }

  /** A frame that is prepared while the last one leaves room for the external display. */
  method ServeFrame(d: HwcDevice, list: seq<Layer>, policy: Policy, outcome: Outcome, lastDocking: bool)
    requires Sound(d.settings) && Books(d.lastExt, d.lastInt)
    requires Room(d.settings, list, d.lastInt) && (d.settings.dock.enabled ==> Has(list, Dockable))
    modifies d
    ensures ServedWell(d.settings, list, outcome.mode, lastDocking, d.frame)
  {
    ghost var begun;
    ghost var (s, lastExt, lastInt) := (d.settings, d.lastExt, d.lastInt);
    var marks;
    begun, marks := d.Prepare(list, policy, outcome, lastDocking);
    ServedIfGranted(s, begun, list, policy == BlitAll && outcome.blits, outcome.mode, lastDocking, lastExt, lastInt,
                    d.frame);
  }

  lemma ServedIfGranted(s: Settings, f0: Frame, list: seq<Layer>, blitAll: bool, mode: bool, lastDocking: bool,
                        lastExt: int, lastInt: int, f: Frame)
    requires Begun(s, f0, list, lastExt, lastInt) && (s.dock.enabled ==> Has(list, Dockable))
    requires Prepared(s, f0, list, blitAll, mode, lastDocking, lastExt, lastInt, f)
    requires Room(s, list, lastInt)
    ensures ServedWell(s, list, mode, lastDocking, f)
  {
    WantedFor(s, f0, list, lastExt, lastInt);
    FbFirst(EnvOf(s, f0), list, f.ovls, f.post2, blitAll);
    if s.dock.enabled || s.mirror.enabled {
      Served(s, f0, list, blitAll, mode, lastDocking, f.ovls, f.post2);
    }
  }

  /** Exactly one external overlay, which shows the first of the largest dockable layers shown inside. */
  ghost predicate ServesLargest(list: seq<Layer>, o: seq<Ovl>, post2: nat)
    requires post2 <= |o|
  {
    && |o| == post2 + 1 && o[post2].external && 0 <= o[post2].layer < |list| && list[o[post2].layer].dockable
    && forall k :: 0 <= k < post2 && 0 <= o[k].layer < |list| && list[o[k].layer].dockable ==>
         list[o[k].layer].area <= list[o[post2].layer].area
  }

  /** A copy of each internal overlay. */
  ghost predicate ServesAll(o: seq<Ovl>, post2: nat)
    requires post2 <= |o|
  {
    |o| == 2 * post2 && forall k :: post2 <= k < |o| ==> o[k].external && o[k].layer == o[k - post2].layer
  }

  lemma ServedDocked(list: seq<Layer>, o: seq<Ovl>, post2: nat, lo: nat, d: int)
    requires |o| == post2 + 1 && lo <= 1 && -1 <= d < post2 && Clones(o, post2, false, d)
    requires LargestDockable(list, o[..post2], lo, d) && HasDockable(list, o, post2)
    requires lo == 1 ==> o[0].layer < 0
    ensures ServesLargest(list, o, post2)
  {
    forall k | 0 <= k < post2 && 0 <= o[k].layer < |list| && list[o[k].layer].dockable
      ensures d >= lo && list[o[k].layer].area <= list[o[d].layer].area
    {
      assert o[..post2][k] == o[k];
    }
    assert o[..post2][d] == o[d];
  }

  lemma ServedMirrored(o: seq<Ovl>, post2: nat, d: int)
    requires |o| == 2 * post2 && -1 <= d < post2 && Clones(o, post2, true, d)
    ensures ServesAll(o, post2)
  {
    forall k | post2 <= k < |o| ensures o[k].external && o[k].layer == o[k - post2].layer {
      assert o[k] == Ovl(o[k - post2].layer, o[k - post2].zorder + post2, MAX_HW_OVERLAYS - 1 - (k - post2), true);
    }
  }

  lemma Served(s: Settings, f0: Frame, list: seq<Layer>, blitAll: bool, mode: bool, lastDocking: bool,
               o: seq<Ovl>, post2: nat)
    requires post2 <= |o| && ExternalOk(list, EnvOf(s, f0), o, post2, blitAll)
    requires MayClone(f0.counts.protected, f0.extOvls, f0.extWanted)
    requires |o| - post2 == ExternalCount(s, list, f0, mode, lastDocking, o, post2)
    requires f0.useSgx || blitAll ==> post2 > 0 && o[0].layer < 0
    ensures f0.current.docking && f0.current.enabled && HasDockable(list, o, post2) && mode ==>
              blitAll || ServesLargest(list, o, post2)
    ensures Mirroring(f0.current) && (mode || !lastDocking) ==> ServesAll(o, post2)
  {
    var d :| -1 <= d < post2 && Clones(o, post2, Mirroring(f0.current), d)
             && if blitAll then d == -1 else LargestDockable(list, o[..post2], Base(EnvOf(s, f0)), d);
    if Mirroring(f0.current) && (mode || !lastDocking) {
      ServedMirrored(o, post2, d);
    } else if f0.current.docking && f0.current.enabled && HasDockable(list, o, post2) && mode && !blitAll {
      ServedDocked(list, o, post2, Base(EnvOf(s, f0)), d);
    }
  }

  /** The framebuffer, if there is one, is the first overlay; when everything is blitted there is no other. */
  lemma FbFirst(e: Env, list: seq<Layer>, o: seq<Ovl>, post2: int, blitAll: bool)
    requires Composed(list, e, o, post2, blitAll)
    ensures e.useSgx || blitAll ==> post2 > 0 && o[0].layer < 0
    ensures blitAll ==> !HasDockable(list, o, post2)
  {
    if !blitAll && e.useSgx {
      assert ToPlanes(o[..post2])[0] == ToPlane(o[..post2][0]);
    }
  }
}
