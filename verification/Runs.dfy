/**
  Whole runs of the blitter: `blit_layers` frame by frame, resets in between, two framebuffers that
  take turns. The incremental output of region mode keeps every framebuffer right.
 */
module Runs {
  import opened Geometry
  import opened Pixels
  import opened Layers
  import opened Blits
  import opened Painter
  import opened Stacks
  import opened BlitList
  import opened DirtyTracking
  import opened Cells
  import opened Output
  import opened Regions
  import opened Progress
  import opened Regionizer

  datatype Mode = PaintMode | RegionMode

  /** The raw frame behind a composition list. */
  function RawFrame(w: int, h: int, list: seq<HwcLayer>): seq<RgzLayer> { FrameOf(w, h, list, |list|) }

  /** The list has something to blit, and nothing that cannot be. */
  predicate Acceptable(w: int, h: int, list: seq<HwcLayer>) {
    AllValid(list, |list|) && 1 < |RawFrame(w, h, list)| <= INPUT_MAXLAYERS + 1
  }

  /** Posted after the buffers of the list's overlays, each image of the frame finds its buffer. */
  ghost predicate BuffersPosted(list: seq<HwcLayer>, s: seq<RgzLayer>, hndls: seq<Handle>) {
    && |hndls| <= INPUT_MAXLAYERS && (hndls == [] ==> forall j :: 1 <= j < |s| ==> !IsImage(s[j]))
    && forall overlays: seq<Handle> {:trigger overlays + hndls} ::
      |overlays| == Overlays(list, |list|) ==> Finds(overlays + hndls, s)
  }

  lemma IndexedPosted(list: seq<HwcLayer>, s: seq<RgzLayer>, hndls: seq<Handle>)
    requires Posts(s, hndls) && Indexed(s, Overlays(list, |list|)) && 1 <= |s| <= INPUT_MAXLAYERS + 1
    ensures BuffersPosted(list, s, hndls)
  {
  }

  /** Few layers, all of which reach the screen's rows. */
  predicate Modest(h: int, raw: seq<RgzLayer>) {
    |raw| <= FEW_LAYERS && forall i :: 0 <= i < |raw| ==> Spans(h, raw[i])
  }

  /** Painting takes any frame; region mode surely takes a modest one. */
  predicate Suited(mode: Mode, h: int, raw: seq<RgzLayer>) { mode == PaintMode || Modest(h, raw) }

  /**
    `blit_layers`, from the point where the regionizer is asked; `possible` sums up the checks made
    before. Every failure resets the regionizer, since its state no longer matches the screen.
   */
  method BlitLayers(rgz: Rgz, blts: BltList, list: seq<HwcLayer>, mode: Mode, possible: bool)
    returns (ok: bool, cmds: seq<Entry>, hndls: seq<Handle>)
    requires rgz.Valid() && HintsUnblended(list)
    modifies rgz, blts
    ensures rgz.Valid()
    ensures !ok ==> rgz.Previous() == [] && rgz.Target() == []
    ensures ok ==> possible && |list| <= INPUT_MAXLAYERS && Acceptable(rgz.w, rgz.h, list)
    ensures (&& possible && |list| <= INPUT_MAXLAYERS && Acceptable(rgz.w, rgz.h, list)
             && Suited(mode, rgz.h, RawFrame(rgz.w, rgz.h, list))) ==> ok
    ensures ok ==> Bracketed(cmds) && Closed(cmds) && Fenced(cmds)
    ensures ok ==> BuffersPosted(list, rgz.Previous(), hndls)
    ensures ok ==> Presented(rgz.w, rgz.h, RawFrame(rgz.w, rgz.h, list)) && SafeHandles(rgz.Previous())
    ensures ok && mode == PaintMode ==>
      && rgz.Target() == [] && Tracked([], [], RawFrame(rgz.w, rgz.h, list), rgz.Previous())
      && Repainted(rgz.w, rgz.h, cmds, rgz.Previous(), |rgz.Previous()|)
    ensures ok && mode == RegionMode ==>
      && rgz.Target() == old(rgz.Previous())
      && Tracked(old(rgz.Previous()), old(rgz.Target()), RawFrame(rgz.w, rgz.h, list), rgz.Previous())
      && Rendered(rgz.w, rgz.h, cmds, rgz.Previous(),
                  Damage(rgz.w, rgz.h, old(rgz.Previous()), old(rgz.Target()), RawFrame(rgz.w, rgz.h, list)))
  {
    ok, cmds, hndls := false, [], [];
    if possible && |list| <= INPUT_MAXLAYERS {
      FrameIsState(rgz.w, rgz.h, list);
      if mode == PaintMode {
        ok, cmds, hndls := BlitPainting(rgz, blts, list);
      } else {
        ok, cmds, hndls := BlitRegions(rgz, blts, list);
      }
    }
    if !ok {
      rgz.Release();
    }
  }

  /** Paint mode: every frame starts from nothing. */
  method BlitPainting(rgz: Rgz, blts: BltList, list: seq<HwcLayer>)
    returns (ok: bool, cmds: seq<Entry>, hndls: seq<Handle>)
    requires rgz.Valid() && HintsUnblended(list) && |list| <= INPUT_MAXLAYERS
    modifies rgz, blts
    ensures rgz.Valid()
    ensures ok <==> Acceptable(rgz.w, rgz.h, list)
    ensures ok ==> Bracketed(cmds) && Closed(cmds) && Fenced(cmds)
    ensures ok ==> BuffersPosted(list, rgz.Previous(), hndls)
    ensures ok ==> SafeHandles(rgz.Previous()) && rgz.Target() == []
    ensures ok ==>
      && Tracked([], [], RawFrame(rgz.w, rgz.h, list), rgz.Previous())
      && Repainted(rgz.w, rgz.h, cmds, rgz.Previous(), |rgz.Previous()|)
  {
    cmds, hndls := [], [];
    rgz.Release();
    ok := rgz.InHwcCheck(list);
    if ok {
      ok, cmds, hndls := rgz.OutPaint(blts);
      IndexedPosted(list, rgz.cur, hndls);
    }
  }

  /** Region mode: only what may differ from the target is drawn. */
  method BlitRegions(rgz: Rgz, blts: BltList, list: seq<HwcLayer>)
    returns (ok: bool, cmds: seq<Entry>, hndls: seq<Handle>)
    requires rgz.Valid() && HintsUnblended(list) && |list| <= INPUT_MAXLAYERS
    modifies rgz, blts
    ensures rgz.Valid()
    ensures ok ==> Acceptable(rgz.w, rgz.h, list)
    ensures Acceptable(rgz.w, rgz.h, list) && Modest(rgz.h, RawFrame(rgz.w, rgz.h, list)) ==> ok
    ensures ok ==> Bracketed(cmds) && Closed(cmds) && Fenced(cmds)
    ensures ok ==> BuffersPosted(list, rgz.Previous(), hndls)
    ensures ok ==> SafeHandles(rgz.Previous())
    ensures ok ==>
      && rgz.Target() == old(rgz.Previous())
      && Tracked(old(rgz.Previous()), old(rgz.Target()), RawFrame(rgz.w, rgz.h, list), rgz.Previous())
      && Rendered(rgz.w, rgz.h, cmds, rgz.Previous(),
                  Damage(rgz.w, rgz.h, old(rgz.Previous()), old(rgz.Target()), RawFrame(rgz.w, rgz.h, list)))
  {
    cmds, hndls := [], [];
    ok := AskRegions(rgz, list);
    if ok {
      ghost var (cur, older) := (rgz.Previous(), rgz.Target());
      ok, cmds, hndls := rgz.OutRegion(blts);
      if ok { IndexedPosted(list, rgz.cur, hndls); }
      assert rgz.Previous() == cur && rgz.Target() == older;
    }
  }

  /** `rgz_in` for region mode: the list is checked and tracked, and the screen is cut up. */
  method AskRegions(rgz: Rgz, list: seq<HwcLayer>) returns (ok: bool)
    requires rgz.Valid() && HintsUnblended(list)
    modifies rgz
    ensures rgz.Valid()
    ensures ok ==> rgz.Regionized() && Acceptable(rgz.w, rgz.h, list) && rgz.Target() == old(rgz.Previous())
    ensures ok ==> Indexed(rgz.cur, Overlays(list, |list|))
    ensures ok ==> Tracked(old(rgz.Previous()), old(rgz.Target()), RawFrame(rgz.w, rgz.h, list), rgz.Previous())
    ensures ok ==> rgz.damaged
                   == Damage(rgz.w, rgz.h, old(rgz.Previous()), old(rgz.Target()), RawFrame(rgz.w, rgz.h, list))
    ensures Modest(rgz.h, RawFrame(rgz.w, rgz.h, list)) ==>
              if ok then Gapless(rgz.hregions, rgz.xcuts, |rgz.hregions|) && |rgz.cur| <= FEW_LAYERS
              else !Acceptable(rgz.w, rgz.h, list)
  {
    ghost var raw := RawFrame(rgz.w, rgz.h, list);
    ghost var (prev, target) := (rgz.Previous(), rgz.Target());
    ok := rgz.InHwcCheck(list);
    assert ok <==> Acceptable(rgz.w, rgz.h, list);
    if !ok { return; }
    ok := rgz.InHwc();
    if !ok { return; }
    ModestGapless(rgz.w, rgz.h, rgz.hregions, rgz.ycuts, rgz.xcuts, prev, target, raw, rgz.cur, rgz.damaged);
  }

  lemma ModestGapless(w: int, h: int, hregions: seq<HRegion>, ycuts: seq<int>, xcuts: seq<seq<int>>,
                      prev: seq<RgzLayer>, target: seq<RgzLayer>, raw: seq<RgzLayer>, cur: seq<RgzLayer>, damage: Rect)
    requires w > 0 && h > 0 && FrameState(w, h, cur) && OnScreenDamage(damage, w, h)
    requires RegionsOk(hregions, ycuts, xcuts, cur, damage, w, h) && Tracked(prev, target, raw, cur)
    ensures Modest(h, raw) ==> Gapless(hregions, xcuts, |hregions|) && |cur| <= FEW_LAYERS
  {
    if Modest(h, raw) {
      forall k | 0 <= k < |cur| ensures Spans(h, cur[k]) {
        assert Spans(h, raw[k]);
      }
      SpanningGapless(w, h, hregions, ycuts, xcuts, cur, damage);
    }
  }

  lemma FrameIsState(w: int, h: int, list: seq<HwcLayer>)
    requires HintsUnblended(list)
    ensures AllValid(list, |list|) ==> Presented(w, h, RawFrame(w, h, list))
  {
    if AllValid(list, |list|) { FrameOfState(w, h, list, |list|); }
  }

  // ----- The screen -----

  /** A frame as the regionizer accepts it. */
  ghost predicate Presented(w: int, h: int, raw: seq<RgzLayer>) { FrameState(w, h, raw) && AllBlittable(raw) }

  /** What a framebuffer holds, as it follows from what the layers' buffers hold. */
  type Framebuffer = (Textures, int, int) -> Pixel

  /** Stored frames and the framebuffers they describe; the older one is the next target. */
  datatype Machine = Machine(last: seq<RgzLayer>, older: seq<RgzLayer>,
                             shown: Framebuffer, hidden: Framebuffer)

  /** What happens between two states: a frame blitted in either mode, or a reset. */
  datatype Event = Region(raw: seq<RgzLayer>, cmds: seq<Entry>)
                 | Repaint(raw: seq<RgzLayer>, cmds: seq<Entry>)
                 | Reset

  /** The framebuffer shows the composition of the frame, on the whole screen. */
  ghost predicate Shows(w: int, h: int, fb: Framebuffer, s: seq<RgzLayer>)
    requires SafeHandles(s)
  {
    forall tx, x, y :: OpaqueFormats(tx) && OnScreen(w, h, x, y) ==>
      fb(tx, x, y) == ComposeAll(tx, w, h, Whole, s, x, y)
  }

  /** The blitter has executed `cmds` on the framebuffer. */
  ghost predicate Executed(w: int, h: int, cmds: seq<Entry>, before: Framebuffer, after: Framebuffer) {
    forall tx, x, y :: OnScreen(w, h, x, y) ==>
      after(tx, x, y) == Exec(tx, w, h, cmds, x, y, before(tx, x, y))
  }

  /** One event, as `BlitLayers` specifies it. A reset leaves nothing known of the framebuffers. */
  ghost predicate Next(w: int, h: int, m: Machine, e: Event, m': Machine) {
    match e
    case Reset => m'.last == [] && m'.older == []
    case Repaint(raw, cmds) =>
      && Presented(w, h, raw) && Tracked([], [], raw, m'.last) && SafeHandles(m'.last) && m'.older == []
      && m'.hidden == m.shown && Executed(w, h, cmds, m.hidden, m'.shown)
      && Repainted(w, h, cmds, m'.last, |m'.last|)
    case Region(raw, cmds) =>
      && Presented(w, h, raw) && Tracked(m.last, m.older, raw, m'.last) && SafeHandles(m'.last)
      && m'.older == m.last && m'.hidden == m.shown && Executed(w, h, cmds, m.hidden, m'.shown)
      && Rendered(w, h, cmds, m'.last, Damage(w, h, m.last, m.older, raw))
  }

  /** The stored frames of the machine are those of the regionizer. */
  ghost predicate Mirrors(rgz: Rgz, m: Machine)
    requires rgz.Valid()
    reads rgz
  {
    m.last == rgz.Previous() && m.older == rgz.Target()
  }

  /** The framebuffers change roles, and `cmds` are executed on the one that was hidden. */
  ghost function Flip(w: int, h: int, m: Machine, cmds: seq<Entry>): Machine {
    m.(shown := (tx: Textures, x: int, y: int) => Exec(tx, w, h, cmds, x, y, m.hidden(tx, x, y)), hidden := m.shown)
  }

  /** Every call of `BlitLayers` is an event of the machine. */
  method BlitFrame(rgz: Rgz, blts: BltList, list: seq<HwcLayer>, mode: Mode, possible: bool, ghost m: Machine)
    returns (ok: bool, cmds: seq<Entry>, hndls: seq<Handle>, ghost e: Event, ghost m': Machine)
    requires rgz.Valid() && HintsUnblended(list) && Mirrors(rgz, m)
    modifies rgz, blts
    ensures rgz.Valid() && Mirrors(rgz, m')
    ensures e == if !ok then Reset
                 else if mode == PaintMode then Repaint(RawFrame(rgz.w, rgz.h, list), cmds)
                 else Region(RawFrame(rgz.w, rgz.h, list), cmds)
    ensures (&& possible && |list| <= INPUT_MAXLAYERS && Acceptable(rgz.w, rgz.h, list)
             && Suited(mode, rgz.h, RawFrame(rgz.w, rgz.h, list))) ==> ok
    ensures ok ==> possible && |list| <= INPUT_MAXLAYERS
    ensures ok ==> Acceptable(rgz.w, rgz.h, list) && BuffersPosted(list, rgz.Previous(), hndls)
    ensures Next(rgz.w, rgz.h, m, e, m')
  {
    ok, cmds, hndls := BlitLayers(rgz, blts, list, mode, possible);
    var raw := RawFrame(rgz.w, rgz.h, list);
    e := if !ok then Reset else if mode == PaintMode then Repaint(raw, cmds) else Region(raw, cmds);
    m' := (if ok then Flip(rgz.w, rgz.h, m, cmds) else m).(last := rgz.Previous(), older := rgz.Target());
  }

  /** Every stored frame is what its framebuffer shows, and dirty counts are sound ages. */
  ghost predicate Right(w: int, h: int, m: Machine) {
    && Stored(w, h, m.last) && Stored(w, h, m.older) && AgeSound(m.last, m.older)
    && (m.last != [] ==> Shows(w, h, m.shown, m.last))
    && (m.older != [] ==> Shows(w, h, m.hidden, m.older))
  }

  // ----- When an incremental frame is right -----

  /**
    Where a region frame draws, all that can be seen may be cut out along the pixel's cell; where
    it does not, what can be seen is what the target was drawn from.
   */
  ghost predicate PixelFaultless(w: int, h: int, m: Machine, raw: seq<RgzLayer>, out: seq<RgzLayer>, x: int, y: int)
    requires SafeHandles(out) && SafeHandles(m.older)
  {
    var damage := Damage(w, h, m.last, m.older, raw);
    if Redrawn(out, damage, x, y) then VisiblyDrawable(out, |out|, PixelCell(w, h, out, damage, x, y), x, y)
    else VisibleStack(w, h, out, x, y) == VisibleStack(w, h, m.older, x, y)
  }

  /** So at every pixel of the screen. It concerns the frames alone, not what the buffers hold. */
  ghost predicate Faultless(w: int, h: int, m: Machine, e: Event, out: seq<RgzLayer>)
    requires SafeHandles(out) && SafeHandles(m.older)
  {
    e.Region? ==> forall x, y :: OnScreen(w, h, x, y) ==> PixelFaultless(w, h, m, e.raw, out, x, y)
  }

  /** At one pixel: what the event leaves there is right whatever the buffers hold, exactly then. */
  lemma PixelRightExactly(w: int, h: int, m: Machine, raw: seq<RgzLayer>, cmds: seq<Entry>, m': Machine, x: int, y: int)
    requires Right(w, h, m) && Next(w, h, m, Region(raw, cmds), m') && OnScreen(w, h, x, y)
    ensures (forall tx :: OpaqueFormats(tx) ==> m'.shown(tx, x, y) == ComposeAll(tx, w, h, Whole, m'.last, x, y))
            <==> PixelFaultless(w, h, m, raw, m'.last, x, y)
  {
    var damage, out := Damage(w, h, m.last, m.older, raw), m'.last;
    TrackedState(w, h, m.last, m.older, raw, out);
    if Redrawn(out, damage, x, y) {
      var cell := PixelCell(w, h, out, damage, x, y);
      ShownAlikeExactly(w, h, CutTo(cell), out, Whole, out, x, y);
      PiecesRightExactly(w, h, out, |out|, cell, x, y);
      forall tx | OpaqueFormats(tx) ensures m'.shown(tx, x, y) == CutPixel(tx, w, h, out, damage, x, y) {
      }
    } else {
      if m.older == [] { NoTargetRedrawsAll(w, h, m.last, raw, out, x, y); }
      ShownAlikeExactly(w, h, Whole, out, Whole, m.older, x, y);
      forall tx | OpaqueFormats(tx)
        ensures m'.shown(tx, x, y) == ComposeAll(tx, w, h, Whole, m.older, x, y)
      {
        assert m'.shown(tx, x, y) == m.hidden(tx, x, y);
      }
    }
  }

  /** One frame: although clean pixels get no blit, the target ends up right, exactly if it is faultless. */
  lemma RegionFrameRight(w: int, h: int, m: Machine, raw: seq<RgzLayer>, cmds: seq<Entry>, m': Machine)
    requires Right(w, h, m) && Next(w, h, m, Region(raw, cmds), m')
    ensures Shows(w, h, m'.shown, m'.last) <==> Faultless(w, h, m, Region(raw, cmds), m'.last)
  {
    forall x, y | OnScreen(w, h, x, y)
      ensures (forall tx :: OpaqueFormats(tx) ==> m'.shown(tx, x, y) == ComposeAll(tx, w, h, Whole, m'.last, x, y))
              <==> PixelFaultless(w, h, m, raw, m'.last, x, y)
    {
      PixelRightExactly(w, h, m, raw, cmds, m', x, y);
    }
  }

  lemma NextKeepsRight(w: int, h: int, m: Machine, e: Event, m': Machine)
    requires Right(w, h, m) && Next(w, h, m, e, m')
    ensures Faultless(w, h, m, e, m'.last) <==> Right(w, h, m')
    ensures !e.Reset? ==> m'.last != [] && (Shows(w, h, m'.shown, m'.last) <==> Right(w, h, m'))
  {
    match e
    case Reset =>
    case Repaint(raw, cmds) =>
      TrackedState(w, h, [], [], raw, m'.last);
    case Region(raw, cmds) =>
      TrackedState(w, h, m.last, m.older, raw, m'.last);
      RegionFrameRight(w, h, m, raw, cmds, m');
  }

  // ----- Runs -----

  /** A run: states joined by events, beginning after a reset. */
  ghost predicate Run(w: int, h: int, states: seq<Machine>, events: seq<Event>) {
    && |states| == |events| + 1 && states[0].last == [] && states[0].older == []
    && (forall i :: 0 <= i < |states| ==> SafeHandles(states[i].last) && SafeHandles(states[i].older))
    && forall i :: 0 <= i < |events| ==> Next(w, h, states[i], events[i], states[i + 1])
  }

  /** The first `n` frames are right when they are shown. */
  ghost predicate ShownRight(w: int, h: int, states: seq<Machine>, events: seq<Event>, n: nat)
    requires Run(w, h, states, events) && n <= |events|
  {
    forall i :: 0 <= i < n ==> Displayed(w, h, events[i], states[i + 1])
  }

  /** What is shown, if anything is, is right. */
  ghost predicate Displayed(w: int, h: int, e: Event, m': Machine)
    requires SafeHandles(m'.last)
  {
    !e.Reset? ==> Shows(w, h, m'.shown, m'.last)
  }

  ghost predicate AllFaultless(w: int, h: int, states: seq<Machine>, events: seq<Event>, n: nat)
    requires Run(w, h, states, events) && n <= |events|
  {
    forall i :: 0 <= i < n ==> Faultless(w, h, states[i], events[i], states[i + 1].last)
  }

  /** One more frame. */
  lemma OneMoreFaultless(w: int, h: int, states: seq<Machine>, events: seq<Event>, i: nat)
    requires Run(w, h, states, events) && i < |events|
    ensures AllFaultless(w, h, states, events, i + 1)
            <==> AllFaultless(w, h, states, events, i) && Faultless(w, h, states[i], events[i], states[i + 1].last)
  {
  }

  lemma OneMoreShown(w: int, h: int, states: seq<Machine>, events: seq<Event>, i: nat)
    requires Run(w, h, states, events) && i < |events|
    ensures ShownRight(w, h, states, events, i + 1)
            <==> ShownRight(w, h, states, events, i) && Displayed(w, h, events[i], states[i + 1])
  {
  }

  lemma {:induction false} RightAt(w: int, h: int, states: seq<Machine>, events: seq<Event>, n: nat)
    requires Run(w, h, states, events) && n <= |events|
    ensures ShownRight(w, h, states, events, n) <==> AllFaultless(w, h, states, events, n)
    ensures AllFaultless(w, h, states, events, n) ==> Right(w, h, states[n])
  {
    if n > 0 {
      var i := n - 1;
      RightAt(w, h, states, events, i);
      OneMoreFaultless(w, h, states, events, i);
      OneMoreShown(w, h, states, events, i);
      assert Next(w, h, states[i], events[i], states[n]);
      if AllFaultless(w, h, states, events, i) {
        NextKeepsRight(w, h, states[i], events[i], states[n]);
      }
    }
  }

  /**
    Main result: in every run from a reset, whatever mix of region frames, repainted frames and
    resets it has, all frames so far were right when shown exactly if all of them were faultless.
   */
  lemma EveryRunIsRight(w: int, h: int, states: seq<Machine>, events: seq<Event>, n: nat)
    requires Run(w, h, states, events) && n <= |events|
    ensures ShownRight(w, h, states, events, n) <==> AllFaultless(w, h, states, events, n)
  {
    RightAt(w, h, states, events, n);
  }

  lemma NextBounded(w: int, h: int, m: Machine, e: Event, m': Machine)
    requires Next(w, h, m, e, m') && Bounded(m.last, NUM_FB)
    ensures Bounded(m'.last, NUM_FB)
  {
    match e
    case Reset =>
    case Repaint(raw, _) => TrackedBounded([], [], raw, m'.last);
    case Region(raw, _) => TrackedBounded(m.last, m.older, raw, m'.last);
  }

  lemma {:induction false} CountsBounded(w: int, h: int, states: seq<Machine>, events: seq<Event>, n: nat)
    requires Run(w, h, states, events) && n <= |events|
    ensures Bounded(states[n].last, NUM_FB)
  {
    if n > 0 {
      CountsBounded(w, h, states, events, n - 1);
      NextBounded(w, h, states[n - 1], events[n - 1], states[n]);
    }
  }

  /** One region frame, as far as tracking goes. */
  ghost predicate Presents(m: Machine, raw: seq<RgzLayer>, m': Machine) {
    m'.older == m.last && Tracked(m.last, m.older, raw, m'.last)
  }

  lemma StillMachine(w: int, h: int, raw: seq<RgzLayer>, m: Machine, m1: Machine, m2: Machine, m3: Machine, m4: Machine,
                     cmds: seq<Entry>, tx: Textures, x: int, y: int, p: Pixel)
    requires Bounded(m.last, NUM_FB) && UniqueIdentities(raw) && OpaqueFormats(tx) && OnScreen(w, h, x, y)
    requires Presents(m, raw, m1) && Presents(m1, raw, m2) && Presents(m2, raw, m3)
    requires Next(w, h, m3, Region(raw, cmds), m4)
    ensures Exec(tx, w, h, cmds, x, y, p) == p
  {
    StillScreenRests(w, h, raw, m.older, m.last, m1.last, m2.last, m3.last, m4.last, x, y);
  }

  /** In a run: the fourth of four equal region frames leaves its framebuffer alone. */
  lemma StillRunRests(w: int, h: int, states: seq<Machine>, events: seq<Event>, n: nat, raw: seq<RgzLayer>,
                      tx: Textures, x: int, y: int, p: Pixel)
    requires Run(w, h, states, events) && n + 4 <= |events| && UniqueIdentities(raw)
    requires OpaqueFormats(tx) && OnScreen(w, h, x, y)
    requires forall k :: n <= k < n + 4 ==> events[k].Region? && events[k].raw == raw
    ensures events[n + 3].Region? && Exec(tx, w, h, events[n + 3].cmds, x, y, p) == p
  {
    CountsBounded(w, h, states, events, n);
    assert Next(w, h, states[n], events[n], states[n + 1]) && Next(w, h, states[n + 1], events[n + 1], states[n + 2]);
    assert Next(w, h, states[n + 2], events[n + 2], states[n + 3]);
    assert Next(w, h, states[n + 3], events[n + 3], states[n + 4]);
    StillMachine(w, h, raw, states[n], states[n + 1], states[n + 2], states[n + 3], states[n + 4], events[n + 3].cmds,
                 tx, x, y, p);
  }

  /** One call of `blit_layers`. */
  datatype Call = Call(list: seq<HwcLayer>, mode: Mode, possible: bool)

  /** The call is sure to be accepted. */
  predicate Sure(w: int, h: int, c: Call) {
    && c.possible && |c.list| <= INPUT_MAXLAYERS && Acceptable(w, h, c.list)
    && Suited(c.mode, h, RawFrame(w, h, c.list))
  }

  /** The event that a call amounts to. */
  ghost predicate Performs(w: int, h: int, c: Call, ok: bool, e: Event) {
    && (if !ok then e.Reset? else !e.Reset? && e.raw == RawFrame(w, h, c.list) && (e.Repaint? <==> c.mode == PaintMode))
    && (Sure(w, h, c) ==> ok)
    && (ok ==> c.possible && |c.list| <= INPUT_MAXLAYERS && Acceptable(w, h, c.list))
  }

  /** Every sequence of calls is a run. */
  method Play(rgz: Rgz, blts: BltList, calls: seq<Call>)
    returns (accepted: seq<bool>, ghost states: seq<Machine>, ghost events: seq<Event>)
    requires rgz.Valid() && rgz.Previous() == [] && rgz.Target() == []
    requires forall i :: 0 <= i < |calls| ==> HintsUnblended(calls[i].list)
    modifies rgz, blts
    ensures rgz.Valid() && Run(rgz.w, rgz.h, states, events) && Mirrors(rgz, states[|events|])
    ensures |accepted| == |events| == |calls|
    ensures forall i :: 0 <= i < |calls| ==> Performs(rgz.w, rgz.h, calls[i], accepted[i], events[i])
  {
    var blank: Framebuffer := (tx: Textures, x: int, y: int) => CLEAR;
    accepted, states, events := [], [Machine([], [], blank, blank)], [];
    for i := 0 to |calls|
      invariant rgz.Valid() && Run(rgz.w, rgz.h, states, events) && Mirrors(rgz, states[|events|])
      invariant |accepted| == |events| == i
      invariant forall k :: 0 <= k < i ==> Performs(rgz.w, rgz.h, calls[k], accepted[k], events[k])
    {
      var ok, cmds, hndls;
      ghost var e, m;
      ok, cmds, hndls, e, m := BlitFrame(rgz, blts, calls[i].list, calls[i].mode, calls[i].possible, states[i]);
      assert Performs(rgz.w, rgz.h, calls[i], ok, e);
      RunGrows(rgz.w, rgz.h, states, events, e, m);
      accepted, states, events := accepted + [ok], states + [m], events + [e];
    }
  }

  lemma NextSafe(w: int, h: int, m: Machine, e: Event, m': Machine)
    requires Next(w, h, m, e, m') && SafeHandles(m.last)
    ensures SafeHandles(m'.last) && SafeHandles(m'.older)
  {
  }

  lemma RunGrows(w: int, h: int, states: seq<Machine>, events: seq<Event>, e: Event, m: Machine)
    requires Run(w, h, states, events) && Next(w, h, states[|events|], e, m)
    ensures Run(w, h, states + [m], events + [e])
  {
    var (s, es) := (states + [m], events + [e]);
    NextSafe(w, h, states[|events|], e, m);
    assert forall i {:trigger s[i]} :: 0 <= i < |states| ==> s[i] == states[i];
    forall i | 0 <= i < |es| ensures Next(w, h, s[i], es[i], s[i + 1]) {
      if i < |events| {
        assert Next(w, h, states[i], events[i], states[i + 1]);
      }
    }
  }

  // ----- Sufficient conditions -----

  /** No layer is an unscaled mirror image. */
  ghost predicate Unmirrored(raw: seq<RgzLayer>) {
    forall i :: 0 <= i < |raw| && IsImage(raw[i]) ==> Scaled(raw[i].hwc) || !Mirrored(raw[i].hwc.transform)
  }

  /** Consecutive frames meet conditions that the code relies on and does not check. */
  ghost predicate Disciplined(m: Machine, e: Event) {
    e.Region? ==> Unmirrored(e.raw) && (m.older != [] ==> Steady(e.raw, m.last, m.older))
  }

  lemma DisciplinedIsFaultless(w: int, h: int, m: Machine, e: Event, m': Machine)
    requires Right(w, h, m) && Next(w, h, m, e, m') && Disciplined(m, e)
    ensures Faultless(w, h, m, e, m'.last)
  {
    if e.Region? {
      var damage, out := Damage(w, h, m.last, m.older, e.raw), m'.last;
      TrackedState(w, h, m.last, m.older, e.raw, out);
      forall x, y | OnScreen(w, h, x, y) ensures PixelFaultless(w, h, m, e.raw, out, x, y) {
        UnmirroredDrawable(out, |out|, PixelCell(w, h, out, damage, x, y), x, y);
        if m.older == [] {
          NoTargetRedrawsAll(w, h, m.last, e.raw, out, x, y);
        } else if !Redrawn(out, damage, x, y) {
          NotRedrawnIsRight(w, h, m.last, m.older, e.raw, out, x, y);
        }
      }
    }
  }

  lemma {:induction false} UnmirroredDrawable(s: seq<RgzLayer>, k: nat, cell: Rect, x: int, y: int)
    requires k <= |s| && SafeHandles(s) && Unmirrored(s)
    ensures VisiblyDrawable(s, k, cell, x, y)
  {
    if k > 0 {
      UnmirroredDrawable(s, k - 1, cell, x, y);
    }
  }

  lemma {:induction false} DisciplinedFaultless(w: int, h: int, states: seq<Machine>, events: seq<Event>, n: nat)
    requires Run(w, h, states, events) && n <= |events|
    requires forall i :: 0 <= i < n ==> Disciplined(states[i], events[i])
    ensures AllFaultless(w, h, states, events, n)
  {
    if n > 0 {
      var i := n - 1;
      DisciplinedFaultless(w, h, states, events, i);
      RightAt(w, h, states, events, i);
      assert Next(w, h, states[i], events[i], states[n]);
      DisciplinedIsFaultless(w, h, states[i], events[i], states[n]);
      OneMoreFaultless(w, h, states, events, i);
    }
  }

  /** Steady frames without mirror images are all right when shown. */
  lemma DisciplinedRun(w: int, h: int, states: seq<Machine>, events: seq<Event>, n: nat)
    requires Run(w, h, states, events) && n <= |events|
    requires forall i :: 0 <= i < n ==> Disciplined(states[i], events[i])
    ensures ShownRight(w, h, states, events, n)
  {
    DisciplinedFaultless(w, h, states, events, n);
    EveryRunIsRight(w, h, states, events, n);
  }

  /** Two command lists leave the same pixel, whatever was there and whatever the buffers hold. */
  ghost predicate AlikeAt(w: int, h: int, a: seq<Entry>, b: seq<Entry>, x: int, y: int) {
    forall tx, p, q :: OpaqueFormats(tx) ==> Exec(tx, w, h, a, x, y, p) == Exec(tx, w, h, b, x, y, q)
  }

  /** With nothing stored, region mode and paint mode do so exactly where all that can be seen may be cut out. */
  lemma RegionRefinesPaint(w: int, h: int, raw: seq<RgzLayer>, s: seq<RgzLayer>,
                           region: seq<Entry>, paint: seq<Entry>, x: int, y: int)
    requires Presented(w, h, raw) && Tracked([], [], raw, s) && SafeHandles(s) && OnScreen(w, h, x, y)
    requires Rendered(w, h, region, s, Damage(w, h, [], [], raw)) && Repainted(w, h, paint, s, |s|)
    ensures AlikeAt(w, h, region, paint, x, y)
            <==> VisiblyDrawable(s, |s|, PixelCell(w, h, s, Damage(w, h, [], [], raw), x, y), x, y)
  {
    var damage := Damage(w, h, [], [], raw);
    var cell := PixelCell(w, h, s, damage, x, y);
    TrackedState(w, h, [], [], raw, s);
    NoTargetRedrawsAll(w, h, [], raw, s, x, y);
    ShownAlikeExactly(w, h, CutTo(cell), s, Whole, s, x, y);
    PiecesRightExactly(w, h, s, |s|, cell, x, y);
    forall tx, p, q | OpaqueFormats(tx)
      ensures Exec(tx, w, h, region, x, y, p) == ComposeAll(tx, w, h, CutTo(cell), s, x, y)
      ensures Exec(tx, w, h, paint, x, y, q) == ComposeAll(tx, w, h, Whole, s, x, y)
    {
      assert Exec(tx, w, h, region, x, y, p) == CutPixel(tx, w, h, s, damage, x, y);
    }
    AlikeIsSameShown(w, h, region, paint, CutTo(cell), s, x, y);
  }

  lemma AlikeIsSameShown(w: int, h: int, a: seq<Entry>, b: seq<Entry>, v: View, s: seq<RgzLayer>, x: int, y: int)
    requires SafeHandles(s)
    requires forall tx, p :: OpaqueFormats(tx) ==> Exec(tx, w, h, a, x, y, p) == ComposeAll(tx, w, h, v, s, x, y)
    requires forall tx, q :: OpaqueFormats(tx) ==> Exec(tx, w, h, b, x, y, q) == ComposeAll(tx, w, h, Whole, s, x, y)
    ensures AlikeAt(w, h, a, b, x, y) <==> SameShown(w, h, v, s, Whole, s, x, y)
  {
    if AlikeAt(w, h, a, b, x, y) {
      forall tx | OpaqueFormats(tx)
        ensures ComposeAll(tx, w, h, v, s, x, y) == ComposeAll(tx, w, h, Whole, s, x, y)
      {
        assert Exec(tx, w, h, a, x, y, CLEAR) == Exec(tx, w, h, b, x, y, CLEAR);
      }
    }
  }
}
