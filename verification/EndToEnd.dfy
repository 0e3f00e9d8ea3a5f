/**
  Planner and regionizer together: a framebuffer that shows what was blitted, put on the screen with
  the overlays of the same frame, displays the painted list.
 */
module EndToEnd {
  import opened Geometry
  import opened Pixels
  import L = Layers
  import opened Blits
  import opened Painter
  import opened BlitList
  import opened DirtyTracking
  import R = Regionizer
  import opened Runs
  import opened Planner
  import opened Planes
  import opened Device
  import opened Frames

  // ----- The list the layer loop hands on -----

  /** The two views of a composition list: what planning looks at, and what the regionizer does. */
  predicate Described(list: seq<Layer>, raw: seq<R.HwcLayer>) {
    |list| == |raw| && forall i :: 0 <= i < |list| ==> (list[i].blended <==> raw[i].layer.blending != L.NoBlend)
  }

  /** The list with the composition types and hints that the layer loop wrote into it. */
  function HandOn(raw: seq<R.HwcLayer>, marks: seq<Mark>): (hw: seq<R.HwcLayer>)
    requires |raw| == |marks|
    ensures |hw| == |raw|
    ensures forall i {:trigger hw[i]} :: 0 <= i < |raw| ==> hw[i] == MarkedLayer(raw[i], marks[i])
  {
    seq(|raw|, i requires 0 <= i < |raw| => MarkedLayer(raw[i], marks[i]))
  }

  function MarkedLayer(l: R.HwcLayer, mark: Mark): R.HwcLayer {
    l.(composition := if mark.overlay then R.Overlay else R.FrameBuffer, clearFb := mark.clearFb)
  }

  /**
    Composing with a framebuffer: overlays are the accepted layers, and carry the clear hint if they
    are not blended. When everything is blitted there are none.
   */
  ghost predicate HandedOn(e: Env, list: seq<Layer>, hw: seq<R.HwcLayer>, blitAll: bool) {
    |hw| == |list| &&
    forall i {:trigger hw[i]} :: 0 <= i < |list| ==>
      LayerHandedOn(list[i], hw[i], !blitAll && Accepts(e, Choose(e, list, i), list[i]))
  }

  predicate LayerHandedOn(l: Layer, hw: R.HwcLayer, accepted: bool) {
    && hw.composition == (if accepted then R.Overlay else R.FrameBuffer)
    && (hw.clearFb <==> accepted && !l.blended)
    && (l.blended <==> hw.layer.blending == L.Premult)
  }

  /** COVERAGE is blending to the layer loop (hwc.c:312), but not to the regionizer (rgz_2d.c:156). */
  predicate NoCoverage(raw: seq<R.HwcLayer>) {
    forall i :: 0 <= i < |raw| ==> raw[i].layer.blending != L.Coverage
  }

  lemma LoopHandsOn(e: Env, list: seq<Layer>, raw: seq<R.HwcLayer>, marks: seq<Mark>, blitAll: bool)
    requires Marked(e, list, blitAll, marks) && Described(list, raw) && NoCoverage(raw) && (blitAll || e.useSgx)
    ensures HandedOn(e, list, HandOn(raw, marks), blitAll)
  {
    var hw := HandOn(raw, marks);
    forall i | 0 <= i < |list|
      ensures LayerHandedOn(list[i], hw[i], !blitAll && Accepts(e, Choose(e, list, i), list[i]))
    {
      assert marks[i] == if blitAll then UNMARKED else MarkOf(e, list, i);
    }
  }

  /** The layer loop never hints at a blended layer, nor at all if SGX composes nothing. */
  lemma HintsKept(e: Env, list: seq<Layer>, raw: seq<R.HwcLayer>, marks: seq<Mark>, blitAll: bool)
    requires Marked(e, list, blitAll, marks) && Described(list, raw)
    ensures R.HintsUnblended(HandOn(raw, marks))
    ensures blitAll || !e.useSgx ==> forall i :: 0 <= i < |raw| ==> !HandOn(raw, marks)[i].clearFb
  {
    var hw := HandOn(raw, marks);
    forall i | 0 <= i < |hw| && hw[i].composition != R.FrameBuffer && hw[i].clearFb
      ensures hw[i].layer.blending != L.Premult
    {
      assert marks[i] == if blitAll then UNMARKED else MarkOf(e, list, i);
    }
    forall i | 0 <= i < |hw| && (blitAll || !e.useSgx) ensures !hw[i].clearFb {
      assert marks[i] == if blitAll then UNMARKED else MarkOf(e, list, i);
    }
  }

  // ----- What is blitted is what the display needs -----

  /** What the layers have at the point: framebuffer layers the pixel read from their buffer. */
  ghost predicate Seen(tx: Textures, w: int, h: int, hw: seq<R.HwcLayer>, at: seq<Shown>, x: int, y: int) {
    |at| == |hw| &&
    forall i :: 0 <= i < |hw| ==>
      && (at[i].Colour? <==> Contains(hw[i].layer.frame, x, y))
      && (at[i].Colour? && hw[i].composition == R.FrameBuffer && hw[i].layer.handle.Native? ==>
            at[i].p == LayerAt(tx, w, h, Whole, hw[i].layer, x, y))
  }

  /** What blitting the list leaves at the point: framebuffer layers painted, hinted places cleared. */
  function Blitted(list: seq<Layer>, hw: seq<R.HwcLayer>, at: seq<Shown>, k: nat): Pixel
    requires k <= |list| == |at| == |hw|
  {
    if k == 0 then CLEAR
    else
      var below := Blitted(list, hw, at, k - 1);
      if hw[k - 1].composition == R.FrameBuffer then Put(list[k - 1].blended, at[k - 1], below)
      else if hw[k - 1].clearFb && at[k - 1].Colour? then CLEAR
      else below
  }

  /** One more layer of the list in the frame that the regionizer builds. */
  lemma StoredTop(tx: Textures, w: int, h: int, list: seq<Layer>, hw: seq<R.HwcLayer>, at: seq<Shown>,
                  k: nat, x: int, y: int)
    requires |list| == |hw| && R.AllValid(hw, |hw|) && R.HintsUnblended(hw) && Seen(tx, w, h, hw, at, x, y)
    requires 1 <= k <= |hw| && (list[k - 1].blended <==> hw[k - 1].layer.blending == L.Premult)
    requires SafeHandles(R.FrameOf(w, h, hw, k - 1)) && SafeHandles(R.FrameOf(w, h, hw, k))
    requires ComposeAll(tx, w, h, Whole, R.FrameOf(w, h, hw, k - 1), x, y) == Blitted(list, hw, at, k - 1)
    ensures ComposeAll(tx, w, h, Whole, R.FrameOf(w, h, hw, k), x, y) == Blitted(list, hw, at, k)
  {
    var front := R.FrameOf(w, h, hw, k - 1);
    if R.Candidate(hw[k - 1]) {
      var l := R.StoredLayer(hw, k - 1);
      assert (front + [l])[|front|] == l;
      ComposeTop(tx, w, h, Whole, front, l, x, y);
    } else {
      assert R.FrameOf(w, h, hw, k) == front;
    }
  }

  /** The painter's composition of the regionizer's frame is what blitting should leave. */
  lemma {:induction false} FrameIsBlitted(tx: Textures, w: int, h: int, list: seq<Layer>, hw: seq<R.HwcLayer>,
                                          at: seq<Shown>, k: nat, x: int, y: int)
    requires |list| == |hw| && R.AllValid(hw, |hw|) && R.HintsUnblended(hw) && Seen(tx, w, h, hw, at, x, y)
    requires forall i :: 0 <= i < |hw| ==> (list[i].blended <==> hw[i].layer.blending == L.Premult)
    requires k <= |hw| && OnScreen(w, h, x, y)
    ensures SafeHandles(R.FrameOf(w, h, hw, k))
    ensures ComposeAll(tx, w, h, Whole, R.FrameOf(w, h, hw, k), x, y) == Blitted(list, hw, at, k)
  {
    R.FrameOfState(w, h, hw, k);
    if k > 0 {
      FrameIsBlitted(tx, w, h, list, hw, at, k - 1, x, y);
      StoredTop(tx, w, h, list, hw, at, k, x, y);
    } else {
      assert Compose(tx, w, h, Whole, R.FrameOf(w, h, hw, 0), 0, x, y) == CLEAR;
    }
  }

  /** What blitting leaves, and what the display needs, of one layer. */
  function LayerLeft(l: Layer, s: Shown, accepted: bool, below: Pixel): Pixel {
    if !accepted then Put(l.blended, s, below) else if !l.blended && s.Colour? then CLEAR else below
  }

  lemma BlittedStep(list: seq<Layer>, hw: seq<R.HwcLayer>, at: seq<Shown>, k: nat, accepted: bool)
    requires 1 <= k <= |list| == |at| == |hw| && LayerHandedOn(list[k - 1], hw[k - 1], accepted)
    ensures Blitted(list, hw, at, k) == LayerLeft(list[k - 1], at[k - 1], accepted, Blitted(list, hw, at, k - 1))
  {
  }

  /** With overlays around it, that is the framebuffer the display needs. */
  lemma {:induction false} BlittedIsFb(e: Env, list: seq<Layer>, hw: seq<R.HwcLayer>, at: seq<Shown>, k: nat)
    requires HandedOn(e, list, hw, false) && k <= |list| == |at|
    ensures Blitted(list, hw, at, k) == FbContent(e, list, at, k)
  {
    if k > 0 {
      BlittedIsFb(e, list, hw, at, k - 1);
      BlittedStep(list, hw, at, k, Accepts(e, Choose(e, list, k - 1), list[k - 1]));
    }
  }

  /** And when everything is blitted it is the whole list. */
  lemma {:induction false} BlittedIsList(e: Env, list: seq<Layer>, hw: seq<R.HwcLayer>, at: seq<Shown>, k: nat)
    requires HandedOn(e, list, hw, true) && k <= |list| == |at|
    ensures Blitted(list, hw, at, k) == PaintList(list, at, k)
  {
    if k > 0 {
      BlittedIsList(e, list, hw, at, k - 1);
      BlittedStep(list, hw, at, k, false);
    }
  }

  /** Dirty counts do not show. */
  lemma {:induction false} CountsUnseen(tx: Textures, w: int, h: int, prev: seq<L.RgzLayer>, target: seq<L.RgzLayer>,
                                        raw: seq<L.RgzLayer>, out: seq<L.RgzLayer>, k: nat, x: int, y: int)
    requires Tracked(prev, target, raw, out) && SafeHandles(raw) && SafeHandles(out) && k <= |raw|
    ensures Compose(tx, w, h, Whole, out, k, x, y) == Compose(tx, w, h, Whole, raw, k, x, y)
  {
    if k > 0 {
      CountsUnseen(tx, w, h, prev, target, raw, out, k - 1, x, y);
    }
  }

  /** The framebuffer alone on the display. */
  lemma FbAlone(list: seq<Layer>, at: seq<Shown>, fb: Pixel, planes: seq<Plane>)
    requires |at| == |list| && planes == [FbPlane(0)]
    ensures Stacked(planes) && Display(list, at, fb, planes, 1) == fb
  {
    assert HasPlane(planes, 0) by { assert planes[0].zorder == 0; }
    assert Display(list, at, fb, planes, 0) == CLEAR;
    assert Over(fb, CLEAR) == fb;
  }

  /** What the blitted framebuffer holds at a point, if it shows the frame that was blitted. */
  lemma ShownIsBlitted(tx: Textures, w: int, h: int, list: seq<Layer>, hw: seq<R.HwcLayer>, at: seq<Shown>,
                       m: Machine, ev: Event, m': Machine, x: int, y: int)
    requires |list| == |hw| && R.AllValid(hw, |hw|) && R.HintsUnblended(hw) && Seen(tx, w, h, hw, at, x, y)
    requires forall i :: 0 <= i < |hw| ==> (list[i].blended <==> hw[i].layer.blending == L.Premult)
    requires Next(w, h, m, ev, m') && !ev.Reset? && ev.raw == RawFrame(w, h, hw)
    requires Shows(w, h, m'.shown, m'.last) && OpaqueFormats(tx) && OnScreen(w, h, x, y)
    ensures m'.shown(tx, x, y) == Blitted(list, hw, at, |list|)
  {
    FrameIsBlitted(tx, w, h, list, hw, at, |hw|, x, y);
    if ev.Region? {
      CountsUnseen(tx, w, h, m.last, m.older, ev.raw, m'.last, |ev.raw|, x, y);
    } else {
      CountsUnseen(tx, w, h, [], [], ev.raw, m'.last, |ev.raw|, x, y);
    }
  }

  /** The first `post2` overlays, with `fb` in the framebuffer, show the painted list at the point. */
  ghost predicate DisplaysList(list: seq<Layer>, at: seq<Shown>, fb: Pixel, ovls: seq<Ovl>, post2: int)
    requires |at| == |list|
  {
    0 <= post2 <= |ovls| &&
    var planes := ToPlanes(ovls[..post2]);
    && Stacked(planes) && (forall k :: 0 <= k < post2 && planes[k].OverlayPlane? ==> planes[k].layer < |list|)
    && Display(list, at, fb, planes, post2) == PaintList(list, at, |list|)
  }

  /** The display of the blitted framebuffer, with overlays or alone. */
  lemma FbDisplayed(e: Env, list: seq<Layer>, ovls: seq<Ovl>, post2: nat, blitAll: bool, hw: seq<R.HwcLayer>,
                    at: seq<Shown>)
    requires Composed(list, e, ovls, post2, blitAll) && (blitAll || e.useSgx)
    requires HandedOn(e, list, hw, blitAll) && Consistent(list, at)
    ensures DisplaysList(list, at, Blitted(list, hw, at, |list|), ovls, post2)
  {
    if blitAll {
      BlittedIsList(e, list, hw, at, |list|);
      assert ToPlanes(ovls[..1]) == [FbPlane(0)];
      FbAlone(list, at, Blitted(list, hw, at, |list|), ToPlanes(ovls[..1]));
    } else {
      BlittedIsFb(e, list, hw, at, |list|);
      DisplayShowsList(e, list, at, ovls[..post2]);
    }
  }

  /**
    A frame is prepared with a framebuffer, its other layers are blitted into it, and the framebuffer
    shows what was blitted. Then the internal display shows the painter's composition of the whole
    list, at every point of the screen.
   */
  lemma BlittedFrameDisplayed(e: Env, list: seq<Layer>, ovls: seq<Ovl>, post2: nat, blitAll: bool,
                              hw: seq<R.HwcLayer>, w: int, h: int, m: Machine, ev: Event, m': Machine,
                              tx: Textures, at: seq<Shown>, x: int, y: int)
    requires Composed(list, e, ovls, post2, blitAll) && (blitAll || e.useSgx)
    requires HandedOn(e, list, hw, blitAll) && R.AllValid(hw, |hw|) && R.HintsUnblended(hw)
    requires Next(w, h, m, ev, m') && !ev.Reset? && ev.raw == RawFrame(w, h, hw)
    requires Shows(w, h, m'.shown, m'.last) && OpaqueFormats(tx) && OnScreen(w, h, x, y)
    requires Seen(tx, w, h, hw, at, x, y) && Consistent(list, at)
    ensures DisplaysList(list, at, m'.shown(tx, x, y), ovls, post2)
  {
    ShownIsBlitted(tx, w, h, list, hw, at, m, ev, m', x, y);
    FbDisplayed(e, list, ovls, post2, blitAll, hw, at);
  }

  // ----- The buffers that are posted -----

  /** MAX_HWC_LAYERS. */
  const MAX_HWC_LAYERS := 32

  /** The buffers behind overlays. */
  function BuffersOf(raw: seq<R.HwcLayer>, o: seq<Ovl>): (hs: seq<L.Handle>)
    requires forall k :: 0 <= k < |o| ==> 0 <= o[k].layer < |raw|
    ensures |hs| == |o| && forall k :: 0 <= k < |o| ==> hs[k] == raw[o[k].layer].layer.handle
  {
    seq(|o|, k requires 0 <= k < |o| => raw[o[k].layer].layer.handle)
  }

  /** Overlays of the internal display; only the first one may be the framebuffer. */
  predicate Showing(raw: seq<R.HwcLayer>, o: seq<Ovl>) {
    |o| <= MAX_HW_OVERLAYS && forall k :: 0 <= k < |o| ==> o[k].layer < |raw| && (k > 0 ==> o[k].layer >= 0)
  }

  /** Where the buffer of overlay `k` is posted: those after a blitted framebuffer move up by one. */
  function Slot(k: nat, blitBuffers: nat): int { if blitBuffers > 0 then k - 1 else k }

  /**
    The buffer list as it is filled while a frame is prepared (an overlay's buffer in its slot, then
    those of the blitter), and as `hwc_set` hands it over: without the slot of a blitted framebuffer.
   */
  method PostBuffers(buffers: array<L.Handle>, raw: seq<R.HwcLayer>, o: seq<Ovl>, useSgx: bool, hndls: seq<L.Handle>)
    returns (nbufs: nat)
    requires buffers.Length == MAX_HWC_LAYERS && |hndls| <= R.INPUT_MAXLAYERS && Showing(raw, o)
    requires hndls != [] || useSgx ==> o != [] && o[0].layer < 0
    requires useSgx ==> hndls == []
    modifies buffers
    ensures nbufs <= buffers.Length
    ensures hndls != [] ==> buffers[..nbufs] == BuffersOf(raw, o[1..]) + hndls
    ensures hndls == [] ==> nbufs == |o|
    ensures hndls == [] ==>
              forall k :: 0 <= k < |o| && o[k].layer >= 0 ==> buffers[k] == raw[o[k].layer].layer.handle
    ensures useSgx ==> buffers[0] == L.Null
  {
    for k := 0 to |o|
      invariant forall j :: 0 <= j < k && o[j].layer >= 0 ==> buffers[j] == raw[o[j].layer].layer.handle
    {
      if o[k].layer >= 0 {
        buffers[k] := raw[o[k].layer].layer.handle;
      }
    }
    var off := if |o| == 1 then 0 else |o|;
    for i := 0 to |hndls|
      invariant forall j :: 0 <= j < i ==> buffers[off + j] == hndls[j]
      invariant forall j :: 0 <= j < off && o[j].layer >= 0 ==> buffers[j] == raw[o[j].layer].layer.handle
      invariant hndls == [] ==>
        forall j :: 0 <= j < |o| && o[j].layer >= 0 ==> buffers[j] == raw[o[j].layer].layer.handle
    {
      buffers[off + i] := hndls[i];
    }
    if useSgx {
      buffers[0] := L.Null;
    }
    nbufs := |o|;
    if |hndls| > 0 {
      nbufs := nbufs + |hndls| - 1;
      ghost var was := buffers[..];
      if |o| > 1 {
        MoveUp(buffers, nbufs);
      }
      forall j | 0 <= j < nbufs ensures buffers[j] == (BuffersOf(raw, o[1..]) + hndls)[j] {
        if j < |o| - 1 {
          assert o[1..][j] == o[j + 1];
        } else if |o| > 1 {
          assert buffers[j] == was[off + (j - (|o| - 1))];
        }
      }
      assert buffers[..nbufs] == BuffersOf(raw, o[1..]) + hndls;
    }
  }

  /** The loop of `hwc_set` that drops the first slot. */
  method MoveUp(buffers: array<L.Handle>, nbufs: nat)
    requires nbufs < buffers.Length
    modifies buffers
    ensures forall j :: 0 <= j < nbufs ==> buffers[j] == old(buffers[j + 1])
  {
    for i := 0 to nbufs
      invariant forall j :: 0 <= j < i ==> buffers[j] == old(buffers[j + 1])
      invariant forall j :: i <= j < buffers.Length ==> buffers[j] == old(buffers[j])
    {
      buffers[i] := buffers[i + 1];
    }
  }

  /** The layer loop makes as many overlays as the plan has. */
  lemma {:induction false} OverlaysCounted(e: Env, list: seq<Layer>, raw: seq<R.HwcLayer>, marks: seq<Mark>, k: nat)
    requires Marked(e, list, false, marks) && |raw| == |list| && k <= |list|
    ensures R.Overlays(HandOn(raw, marks), k) == |Choose(e, list, k).acc|
  {
    if k > 0 {
      OverlaysCounted(e, list, raw, marks, k - 1);
      assert marks[k - 1] == MarkOf(e, list, k - 1);
      assert HandOn(raw, marks)[k - 1] == MarkedLayer(raw[k - 1], marks[k - 1]);
    }
  }

  lemma {:induction false} NoOverlays(raw: seq<R.HwcLayer>, marks: seq<Mark>, k: nat)
    requires |raw| == |marks| && k <= |raw| && forall i :: 0 <= i < |marks| ==> marks[i] == UNMARKED
    ensures R.Overlays(HandOn(raw, marks), k) == 0
  {
    if k > 0 {
      NoOverlays(raw, marks, k - 1);
      assert HandOn(raw, marks)[k - 1] == MarkedLayer(raw[k - 1], marks[k - 1]);
    }
  }

  // ----- Whole frames -----

  /** The buffers handed over with a frame, `blit` of them for the blitter. */
  datatype Posting = Posting(buffers: seq<L.Handle>, blit: nat)

  /** One frame of the composer: what was decided, planned, handed on and left for `hwc_set`. */
  datatype Shot = Shot(settings: Settings, begun: Frame, list: seq<Layer>, raw: seq<R.HwcLayer>, marks: seq<Mark>,
                       ovls: seq<Ovl>, post2: int, blitAll: bool, useSgx: bool, posting: Posting) {
    function Env(): Env { EnvOf(settings, begun) }

    function Handed(): seq<R.HwcLayer>
      requires |raw| == |marks|
    {
      HandOn(raw, marks)
    }
  }

  /** Whether a framebuffer is needed, and in which colour order, follows from the counts. */
  predicate Judged(s: Shot) {
    var all := CanRenderAll(s.Env(), Stats(s.list, s.settings.primaryTransform, |s.list|));
    && (s.begun.useSgx <==> !all)
    && (all ==> s.begun.swapRb == (Stats(s.list, s.settings.primaryTransform, |s.list|).bgr != 0))
  }

  /** The list as the loop left it, and what was done about the framebuffer. */
  ghost predicate Planned(w: int, h: int, settings: Settings, begun: Frame, list: seq<Layer>, raw: seq<R.HwcLayer>,
                          marks: seq<Mark>, blitAll: bool, e: Event) {
    && Described(list, raw) && Marked(EnvOf(settings, begun), list, blitAll, marks)
    && (!e.Reset? ==>
          && (blitAll || begun.useSgx) && R.AllValid(HandOn(raw, marks), |raw|)
          && e.raw == RawFrame(w, h, HandOn(raw, marks)))
  }

  /**
    Whoever is in charge of the framebuffer fills it: the blitter, or SGX if the regionizer was not
    asked or refused; without a framebuffer neither.
   */
  predicate FbFilled(s: Shot, e: Event) {
    && 0 <= s.post2 <= |s.ovls|
    && (HasFb(s.ovls, s.post2) <==> s.useSgx || !e.Reset?) && !(s.useSgx && !e.Reset?)
  }

  /** A frame as it was planned, with the overlays that show it. */
  ghost predicate Taken(w: int, h: int, s: Shot, e: Event) {
    && Planned(w, h, s.settings, s.begun, s.list, s.raw, s.marks, s.blitAll, e) && Judged(s)
    && Composed(s.list, s.Env(), s.ovls, s.post2, s.blitAll) && FbFilled(s, e)
  }

  /** Overlay `k` of the internal display finds its buffer, and so do the images that are blitted. */
  ghost predicate Reaches(s: Shot, e: Event, last: seq<L.RgzLayer>) {
    && 0 <= s.post2 <= |s.ovls|
    && (forall k :: 0 <= k < s.post2 && 0 <= s.ovls[k].layer < |s.raw| ==>
          0 <= Slot(k, s.posting.blit) < |s.posting.buffers|
          && s.posting.buffers[Slot(k, s.posting.blit)] == s.raw[s.ovls[k].layer].layer.handle)
    && (!e.Reset? ==> R.Finds(s.posting.buffers, last))
    && (s.useSgx ==> s.posting.buffers != [] && s.posting.buffers[0] == L.Null)
  }

  /** What is asked of the composer for one frame, and what the parts outside the model answer. */
  datatype Request = Request(list: seq<Layer>, raw: seq<R.HwcLayer>, mode: Mode, possible: bool, accepts: bool,
                             lastDocking: bool)

  /**
    `hwc_prepare` with its calls of `blit_layers`, and `hwc_set`. The regionizer is asked before the
    layer loop or after it, depending on the policy, and forgets its frames when it does not blit.
    Without a blit policy it is never asked.
   */
  method ShowFrame(d: HwcDevice, rgz: R.Rgz, blts: BltList, buffers: array<L.Handle>, r: Request, policy: Policy,
                   ghost m: Machine, ghost last: Turn)
    returns (ghost e: Event, ghost m': Machine, ghost t: Turn, ghost shot: Shot)
    requires Sound(d.settings) && Books(d.lastExt, d.lastInt) && Booked(d, last)
    requires rgz.Valid() && Mirrors(rgz, m) && Described(r.list, r.raw)
    requires policy == BlitDisabled ==> m.last == [] && m.older == []
    requires buffers.Length == MAX_HWC_LAYERS
    modifies d`frame, d`lastExt, d`lastInt, rgz, blts, buffers
    ensures Books(d.lastExt, d.lastInt) && Booked(d, t) && Follows(last, t)
    ensures rgz.Valid() && Mirrors(rgz, m') && Next(rgz.w, rgz.h, m, e, m')
    ensures policy == BlitDisabled ==> m'.last == [] && m'.older == []
    ensures Taken(rgz.w, rgz.h, shot, e) && Reaches(shot, e, m'.last)
    ensures Delivered(rgz.w, rgz.h, d, shot, r, policy, t, e)
  {
    var hndls;
    hndls, e, m', t, shot := TakeShot(d, rgz, blts, r, policy, m, last);
    shot := PostShot(buffers, shot, r.raw, d.frame.ovls[..d.frame.post2], d.frame.useSgx, hndls,
                     rgz.w, rgz.h, e, m'.last);
  }

  /** The list as it is before the layer loop: nothing is an overlay yet. */
  function Unmarked(n: nat): seq<Mark> { seq(n, _ => UNMARKED) }

  /**
    Which blits are made. If everything is to be blitted, the regionizer is asked for the list as it
    came, else for what the loop left to SGX; if it is asked it does what it can.
   */
  ghost predicate BlitsAsAsked(w: int, h: int, policy: Policy, useSgx: bool, raw: seq<R.HwcLayer>, marks: seq<Mark>,
                               mode: Mode, possible: bool, e: Event)
    requires |raw| == |marks|
  {
    match policy
    case BlitDisabled => e.Reset?
    case BlitAll => Performs(w, h, Call(HandOn(raw, Unmarked(|raw|)), mode, possible), !e.Reset?, e)
    case BlitDefault =>
      if useSgx then Performs(w, h, Call(HandOn(raw, marks), mode, possible), !e.Reset?, e) else e.Reset?
  }

  /** The shot is one of the request, and what it says is what the device is left with. */
  ghost predicate Delivered(w: int, h: int, d: HwcDevice, s: Shot, r: Request, policy: Policy, t: Turn, e: Event)
    reads d
  {
    && s.settings == d.settings && s.list == r.list && s.raw == r.raw && |s.marks| == |s.raw|
    && BlitsAsAsked(w, h, policy, s.begun.useSgx, s.raw, s.marks, r.mode,
                    r.possible && !s.settings.mirror.enabled, e)
    && s.blitAll == (policy == BlitAll && !e.Reset?)
    && s.ovls == d.frame.ovls && s.post2 == d.frame.post2 && s.useSgx == d.frame.useSgx
    && t.internal == s.post2 && t.external == |s.ovls| - s.post2
  }

  /** All but the buffer list. */
  method TakeShot(d: HwcDevice, rgz: R.Rgz, blts: BltList, r: Request, policy: Policy,
                  ghost m: Machine, ghost last: Turn)
    returns (hndls: seq<L.Handle>, ghost e: Event, ghost m': Machine, ghost t: Turn, ghost shot: Shot)
    requires Sound(d.settings) && Books(d.lastExt, d.lastInt) && Booked(d, last)
    requires rgz.Valid() && Mirrors(rgz, m) && Described(r.list, r.raw)
    requires policy == BlitDisabled ==> m.last == [] && m.older == []
    modifies d`frame, d`lastExt, d`lastInt, rgz, blts
    ensures Books(d.lastExt, d.lastInt) && Booked(d, t) && Follows(last, t)
    ensures rgz.Valid() && Mirrors(rgz, m') && Next(rgz.w, rgz.h, m, e, m')
    ensures policy == BlitDisabled ==> m'.last == [] && m'.older == []
    ensures Taken(rgz.w, rgz.h, shot, e) && Delivered(rgz.w, rgz.h, d, shot, r, policy, t, e)
    ensures if e.Reset? then hndls == [] else BuffersPosted(shot.Handed(), m'.last, hndls)
  {
    d.BeginFrame(r.list);
    ghost var (s, useSgx) := (d.settings, d.frame.useSgx);
    var o, dockIx, marks, blits;
    o, dockIx, marks, blits, hndls, e, m' := PlanAndBlit(d.settings, d.frame, rgz, blts, r.list, r.raw, policy, r.mode,
                                                         r.possible && !d.settings.mirror.enabled, m);
    t, shot := CompleteShot(d, r.list, r.raw, marks, o, dockIx, policy, Outcome(blits, r.accepts), r.lastDocking, last,
                            rgz.w, rgz.h, e);
    assert shot.settings == d.settings == s && shot.begun.useSgx == useSgx && shot.marks == marks;
  }

  /** The part that fills the buffer list. */
  method PostShot(buffers: array<L.Handle>, ghost s: Shot, raw: seq<R.HwcLayer>, o: seq<Ovl>, useSgx: bool,
                  hndls: seq<L.Handle>, ghost w: int, ghost h: int, ghost e: Event, ghost last: seq<L.RgzLayer>)
    returns (ghost shot: Shot)
    requires Taken(w, h, s, e) && s.raw == raw && o == s.ovls[..s.post2] && useSgx == s.useSgx
    requires if e.Reset? then hndls == [] else BuffersPosted(s.Handed(), last, hndls)
    requires buffers.Length == MAX_HWC_LAYERS
    modifies buffers
    ensures shot == s.(posting := shot.posting) && Taken(w, h, shot, e) && Reaches(shot, e, last)
  {
    ShotShowing(w, h, s, e);
    var nbufs := PostBuffers(buffers, raw, o, useSgx, hndls);
    shot := s.(posting := Posting(buffers[..nbufs], |hndls|));
    PostingReaches(w, h, shot, e, last, hndls, o);
  }

  /** The part of a frame after the blits. */
  method CompleteShot(d: HwcDevice, list: seq<Layer>, ghost raw: seq<R.HwcLayer>, ghost marks: seq<Mark>, o: seq<Ovl>,
                      dockIx: int, policy: Policy, outcome: Outcome, lastDocking: bool, ghost last: Turn,
                      ghost w: int, ghost h: int, ghost e: Event)
    returns (ghost t: Turn, ghost shot: Shot)
    requires Books(d.lastExt, d.lastInt) && Booked(d, last)
    requires Begun(d.settings, d.frame, list, d.lastExt, d.lastInt)
    requires InternalSet(EnvOf(d.settings, d.frame), list, policy == BlitAll && outcome.blits, d.frame.extWanted,
                         o, dockIx)
    requires Planned(w, h, d.settings, d.frame, list, raw, marks, policy == BlitAll && outcome.blits, e)
    requires (outcome.blits <==> !e.Reset?) && (outcome.blits ==> policy != BlitDisabled)
    modifies d`frame, d`lastExt, d`lastInt
    ensures Books(d.lastExt, d.lastInt) && Booked(d, t) && Follows(last, t)
    ensures shot == Shot(d.settings, old(d.frame), list, raw, marks, d.frame.ovls, d.frame.post2,
                         policy == BlitAll && outcome.blits, d.frame.useSgx, Posting([], 0))
    ensures Taken(w, h, shot, e)
    ensures t.internal == shot.post2 && t.external == |shot.ovls| - shot.post2
  {
    ghost var begun := d.frame;
    d.frame, shot := CompleteTaken(d.settings, d.frame, list, raw, marks, o, dockIx, policy, outcome, lastDocking,
                                   d.lastExt, d.lastInt, w, h, e);
    t := Post(d, begun, list, policy == BlitAll && outcome.blits, outcome.mode, lastDocking, last);
  }

  /** The frame with its clones, as it is left for `hwc_set`. */
  method CompleteTaken(s: Settings, begun: Frame, list: seq<Layer>, ghost raw: seq<R.HwcLayer>, ghost marks: seq<Mark>,
                       o: seq<Ovl>, dockIx: int, policy: Policy, outcome: Outcome, lastDocking: bool,
                       lastExt: int, lastInt: int, ghost w: int, ghost h: int, ghost e: Event)
    returns (f: Frame, ghost shot: Shot)
    requires Books(lastExt, lastInt) && Begun(s, begun, list, lastExt, lastInt)
    requires InternalSet(EnvOf(s, begun), list, policy == BlitAll && outcome.blits, begun.extWanted, o, dockIx)
    requires Planned(w, h, s, begun, list, raw, marks, policy == BlitAll && outcome.blits, e)
    requires (outcome.blits <==> !e.Reset?) && (outcome.blits ==> policy != BlitDisabled)
    ensures Prepared(s, begun, list, policy == BlitAll && outcome.blits, outcome.mode, lastDocking, lastExt, lastInt, f)
    ensures shot == Shot(s, begun, list, raw, marks, f.ovls, f.post2, policy == BlitAll && outcome.blits, f.useSgx,
                         Posting([], 0))
    ensures Taken(w, h, shot, e)
  {
    f := CompleteFrame(s, begun, list, o, dockIx, policy, outcome, lastDocking, lastExt, lastInt);
    shot := Shot(s, begun, list, raw, marks, f.ovls, f.post2, policy == BlitAll && outcome.blits, f.useSgx,
                 Posting([], 0));
    PreparedTaken(w, h, shot, f, policy, outcome, lastDocking, lastExt, lastInt, e);
  }

  lemma OverlaysShowing(e: Env, list: seq<Layer>, raw: seq<R.HwcLayer>, o: seq<Ovl>)
    requires Internal(e, list, o) && |o| <= MAX_HW_OVERLAYS && |raw| == |list|
    ensures Showing(raw, o) && |o| == Base(e) + |Choose(e, list, |list|).acc|
    ensures if e.useSgx then o[0].layer < 0 else forall k :: 0 <= k < |o| ==> o[k].layer >= 0
  {
    InternalLayers(e, list, o);
  }

  /** The overlays of the frame, as posting needs them. */
  lemma ShotShowing(w: int, h: int, s: Shot, e: Event)
    requires Taken(w, h, s, e)
    ensures Showing(s.raw, s.ovls[..s.post2])
    ensures s.useSgx || !e.Reset? ==> s.post2 > 0 && s.ovls[0].layer < 0
    ensures !e.Reset? ==> R.Overlays(s.Handed(), |s.raw|) == s.post2 - 1
  {
    if s.blitAll {
      NoOverlays(s.raw, s.marks, |s.raw|);
    } else {
      var o := s.ovls[..s.post2];
      OverlaysShowing(s.Env(), s.list, s.raw, o);
      OverlaysCounted(s.Env(), s.list, s.raw, s.marks, |s.raw|);
      assert forall k :: 0 <= k < s.post2 ==> s.ovls[k] == o[k];
    }
  }

  lemma PostingReaches(w: int, h: int, s: Shot, e: Event, last: seq<L.RgzLayer>, hndls: seq<L.Handle>, o: seq<Ovl>)
    requires 0 <= s.post2 <= |s.ovls| && o == s.ovls[..s.post2]
    requires Showing(s.raw, o) && s.posting.blit == |hndls| && |s.raw| == |s.marks|
    requires !e.Reset? ==> o != [] && o[0].layer < 0 && R.Overlays(s.Handed(), |s.raw|) == |o| - 1
    requires if e.Reset? then hndls == [] else BuffersPosted(s.Handed(), last, hndls)
    requires hndls != [] ==> s.posting.buffers == BuffersOf(s.raw, o[1..]) + hndls
    requires hndls == [] ==> |s.posting.buffers| == |o|
    requires hndls == [] ==>
               forall k :: 0 <= k < |o| && o[k].layer >= 0 ==> s.posting.buffers[k] == s.raw[o[k].layer].layer.handle
    requires s.useSgx ==> o != [] && s.posting.buffers != [] && s.posting.buffers[0] == L.Null
    ensures Reaches(s, e, last)
  {
    forall k | 0 <= k < s.post2 && 0 <= s.ovls[k].layer < |s.raw|
      ensures var i := Slot(k, s.posting.blit);
              0 <= i < |s.posting.buffers| && s.posting.buffers[i] == s.raw[s.ovls[k].layer].layer.handle
    {
      assert o[k] == s.ovls[k];
      if hndls != [] {
        assert o[1..][k - 1] == o[k];
      }
    }
    if !e.Reset? && hndls != [] {
      assert |BuffersOf(s.raw, o[1..])| == |o| - 1;
    }
  }

  lemma PreparedTaken(w: int, h: int, s: Shot, f: Frame, policy: Policy, outcome: Outcome, lastDocking: bool,
                      lastExt: int, lastInt: int, e: Event)
    requires Begun(s.settings, s.begun, s.list, lastExt, lastInt)
    requires Planned(w, h, s.settings, s.begun, s.list, s.raw, s.marks, s.blitAll, e)
    requires Prepared(s.settings, s.begun, s.list, s.blitAll, outcome.mode, lastDocking, lastExt, lastInt, f)
    requires Left(s.settings, s.begun, s.list, policy, outcome, f)
    requires s.ovls == f.ovls && s.post2 == f.post2 && s.useSgx == f.useSgx
    requires s.blitAll == (policy == BlitAll && outcome.blits)
    requires (outcome.blits <==> !e.Reset?) && (outcome.blits ==> policy != BlitDisabled)
    ensures Taken(w, h, s, e)
  {
  }

  /** The layer loop, and before or after it the blits. */
  method PlanAndBlit(s: Settings, begun: Frame, rgz: R.Rgz, blts: BltList, list: seq<Layer>, raw: seq<R.HwcLayer>,
                     policy: Policy, mode: Mode, possible: bool, ghost m: Machine)
    returns (o: seq<Ovl>, dockIx: int, marks: seq<Mark>, blits: bool, hndls: seq<L.Handle>,
             ghost e: Event, ghost m': Machine)
    requires rgz.Valid() && Mirrors(rgz, m) && Described(list, raw)
    requires policy == BlitDisabled ==> m.last == [] && m.older == []
    modifies rgz, blts
    ensures rgz.Valid() && Mirrors(rgz, m') && Next(rgz.w, rgz.h, m, e, m')
    ensures policy == BlitDisabled ==> m'.last == [] && m'.older == []
    ensures InternalSet(EnvOf(s, begun), list, policy == BlitAll && blits, begun.extWanted, o, dockIx)
    ensures Planned(rgz.w, rgz.h, s, begun, list, raw, marks, policy == BlitAll && blits, e) && (blits <==> !e.Reset?)
    ensures if blits then policy != BlitDisabled && BuffersPosted(HandOn(raw, marks), m'.last, hndls) else hndls == []
    ensures BlitsAsAsked(rgz.w, rgz.h, policy, begun.useSgx, raw, marks, mode, possible, e)
  {
    var env := EnvOf(s, begun);
    blits, hndls, e, m' := false, [], Reset, m;
    if policy == BlitAll {
      var unmarked := Unmarked(|list|);
      blits, hndls, e, m' := BlitMarked(rgz, blts, env, list, raw, unmarked, true, mode, possible, m);
      o, dockIx, marks := SetUpInternal(env, list, blits, begun.extWanted);
      assert blits ==> marks == unmarked;
      return;
    }
    o, dockIx, marks := SetUpInternal(env, list, false, begun.extWanted);
    if policy == BlitDefault {
      if begun.useSgx {
        blits, hndls, e, m' := BlitMarked(rgz, blts, env, list, raw, marks, false, mode, possible, m);
      } else {
        rgz.Release();
        m' := m.(last := [], older := []);
      }
    }
  }

  /** `blit_layers` on the list as it is marked by then. */
  method BlitMarked(rgz: R.Rgz, blts: BltList, ghost env: Env, ghost list: seq<Layer>, raw: seq<R.HwcLayer>,
                    marks: seq<Mark>, ghost blitAll: bool, mode: Mode, possible: bool, ghost m: Machine)
    returns (ok: bool, hndls: seq<L.Handle>, ghost e: Event, ghost m': Machine)
    requires rgz.Valid() && Mirrors(rgz, m) && Described(list, raw) && Marked(env, list, blitAll, marks)
    modifies rgz, blts
    ensures rgz.Valid() && Mirrors(rgz, m') && Next(rgz.w, rgz.h, m, e, m') && (ok <==> !e.Reset?)
    ensures ok ==> R.AllValid(HandOn(raw, marks), |raw|) && e.raw == RawFrame(rgz.w, rgz.h, HandOn(raw, marks))
    ensures Performs(rgz.w, rgz.h, Call(HandOn(raw, marks), mode, possible), ok, e)
    ensures if ok then BuffersPosted(HandOn(raw, marks), m'.last, hndls) else hndls == []
  {
    HintsKept(env, list, raw, marks, blitAll);
    var cmds;
    ok, cmds, hndls, e, m' := BlitFrame(rgz, blts, HandOn(raw, marks), mode, possible, m);
    if !ok { hndls := []; }
  }

  /** The frames of a composer, one after the other. */
  ghost predicate ComposerRun(w: int, h: int, shots: seq<Shot>, turns: seq<Turn>, states: seq<Machine>,
                              events: seq<Event>) {
    && Run(w, h, states, events) && TurnRun(turns) && |shots| == |events| && |turns| == |events| + 1
    && forall i :: 0 <= i < |shots| ==>
         Taken(w, h, shots[i], events[i]) && Reaches(shots[i], events[i], states[i + 1].last)
  }

  /** The first `n` frames are those asked for. */
  ghost predicate Answered(shots: seq<Shot>, requests: seq<Request>, n: nat) {
    n <= |shots| && n <= |requests|
    && forall i :: 0 <= i < n ==> shots[i].list == requests[i].list && shots[i].raw == requests[i].raw
  }

  lemma AnsweredNext(shots: seq<Shot>, requests: seq<Request>, s: Shot)
    requires Answered(shots, requests, |shots|) && |shots| < |requests|
    requires s.list == requests[|shots|].list && s.raw == requests[|shots|].raw
    ensures Answered(shots + [s], requests, |shots| + 1)
  {
  }

  /** Every sequence of frames is such a run. The policy is chosen once, when the device is opened. */
  method ShowFrames(d: HwcDevice, rgz: R.Rgz, blts: BltList, buffers: array<L.Handle>, policy: Policy,
                    requests: seq<Request>)
    returns (ghost shots: seq<Shot>, ghost turns: seq<Turn>, ghost states: seq<Machine>, ghost events: seq<Event>)
    requires Sound(d.settings) && d.lastExt == d.lastInt == 0
    requires rgz.Valid() && rgz.Previous() == [] && rgz.Target() == []
    requires forall i :: 0 <= i < |requests| ==> Described(requests[i].list, requests[i].raw)
    requires buffers.Length == MAX_HWC_LAYERS
    modifies d, rgz, blts, buffers
    ensures ComposerRun(rgz.w, rgz.h, shots, turns, states, events) && |shots| == |requests|
    ensures Answered(shots, requests, |requests|)
  {
    var blank: Framebuffer := (tx: Textures, x: int, y: int) => CLEAR;
    shots, turns, states, events := [], [Turn(0, 0, 0, 0, 0, 0)], [Machine([], [], blank, blank)], [];
    for i := 0 to |requests|
      invariant Sound(d.settings) && Books(d.lastExt, d.lastInt) && rgz.Valid()
      invariant ComposerRun(rgz.w, rgz.h, shots, turns, states, events) && |shots| == i
      invariant Booked(d, turns[i]) && Mirrors(rgz, states[i])
      invariant policy == BlitDisabled ==> states[i].last == [] && states[i].older == []
      invariant Answered(shots, requests, i)
    {
      var r := requests[i];
      ghost var e, m, t, shot;
      e, m, t, shot := ShowFrame(d, rgz, blts, buffers, r, policy, states[i], turns[i]);
      ComposerGrows(rgz.w, rgz.h, shots, turns, states, events, shot, t, m, e);
      AnsweredNext(shots, requests, shot);
      shots, turns, states, events := shots + [shot], turns + [t], states + [m], events + [e];
    }
  }

  lemma ComposerGrows(w: int, h: int, shots: seq<Shot>, turns: seq<Turn>, states: seq<Machine>, events: seq<Event>,
                      s: Shot, t: Turn, m: Machine, e: Event)
    requires ComposerRun(w, h, shots, turns, states, events)
    requires Next(w, h, states[|events|], e, m) && Follows(turns[|events|], t)
    requires Taken(w, h, s, e) && Reaches(s, e, m.last)
    ensures ComposerRun(w, h, shots + [s], turns + [t], states + [m], events + [e])
  {
    RunGrows(w, h, states, events, e, m);
    TurnsGrow(turns, t);
    forall i | 0 <= i < |shots| + 1
      ensures Taken(w, h, (shots + [s])[i], (events + [e])[i])
      ensures Reaches((shots + [s])[i], (events + [e])[i], (states + [m])[i + 1].last)
    {
      if i < |shots| {
        assert Taken(w, h, shots[i], events[i]) && Reaches(shots[i], events[i], states[i + 1].last);
      }
    }
  }

  lemma TurnsGrow(turns: seq<Turn>, t: Turn)
    requires TurnRun(turns) && Follows(turns[|turns| - 1], t)
    ensures TurnRun(turns + [t])
  {
    var ts := turns + [t];
    forall n | 0 <= n < |ts| - 1 ensures Follows(ts[n], ts[n + 1]) {
      if n < |turns| - 1 {
        assert Follows(turns[n], turns[n + 1]);
      }
    }
  }

  /**
    Main result: after every frame that is blitted, if all frames have been faultless up to it, the
    internal display shows the painter's composition of the frame's list, overlays included.
   */
  lemma FaultlessRunDisplayed(w: int, h: int, shots: seq<Shot>, turns: seq<Turn>, states: seq<Machine>,
                              events: seq<Event>, i: nat, tx: Textures, at: seq<Shown>, x: int, y: int)
    requires ComposerRun(w, h, shots, turns, states, events) && i < |shots| && !events[i].Reset?
    requires AllFaultless(w, h, states, events, i + 1) && NoCoverage(shots[i].raw)
    requires OpaqueFormats(tx) && OnScreen(w, h, x, y)
    requires Seen(tx, w, h, shots[i].Handed(), at, x, y) && Consistent(shots[i].list, at)
    ensures DisplaysList(shots[i].list, at, states[i + 1].shown(tx, x, y), shots[i].ovls, shots[i].post2)
  {
    var s := shots[i];
    EveryRunIsRight(w, h, states, events, i + 1);
    assert Taken(w, h, s, events[i]) && Next(w, h, states[i], events[i], states[i + 1]);
    LoopHandsOn(s.Env(), s.list, s.raw, s.marks, s.blitAll);
    HintsKept(s.Env(), s.list, s.raw, s.marks, s.blitAll);
    BlittedFrameDisplayed(s.Env(), s.list, s.ovls, s.post2, s.blitAll, s.Handed(), w, h,
                          states[i], events[i], states[i + 1], tx, at, x, y);
  }

  /**
    A frame that the display renders without a framebuffer shows the painted list too, unless a layer
    slips through the aggregate test.
   */
  lemma OverlayFrameDisplayed(w: int, h: int, s: Shot, e: Event, at: seq<Shown>, fb: Pixel)
    requires Taken(w, h, s, e) && !s.blitAll && !s.begun.useSgx && Consistent(s.list, at)
    requires forall i :: 0 <= i < |s.list| ==> !SlipsThrough(s.Env(), s.list[i])
    ensures DisplaysList(s.list, at, fb, s.ovls, s.post2)
  {
    var o := s.ovls[..s.post2];
    InternalPlanes(s.Env(), s.list, o);
    DisplayShowsList(s.Env(), s.list, at, o);
    AllChosen(s.Env(), s.list, |s.list|);
    ChooseShape(s.Env(), s.list, |s.list|);
    OverlaysOnly(s.Env(), s.list, at, o, fb, |o|);
    AllOverlaysPicture(s.Env(), s.list, at, |s.list|);
  }

  /** A framebuffer in a frame that is not blitted as a whole means that the loop set one up. */
  lemma FbPlanned(w: int, h: int, s: Shot, e: Event)
    requires Taken(w, h, s, e)
    ensures HasFb(s.ovls, s.post2) <==> s.blitAll || s.begun.useSgx
  {
    if !s.blitAll {
      var o := s.ovls[..s.post2];
      OverlaysShowing(s.Env(), s.list, s.raw, o);
      assert forall k :: 0 <= k < s.post2 ==> s.ovls[k] == o[k];
    }
  }

  /** A frame whose framebuffer SGX composes, by painting what is left to it and clearing where it is told to. */
  lemma SgxFrameDisplayed(w: int, h: int, s: Shot, e: Event, at: seq<Shown>)
    requires Taken(w, h, s, e) && s.useSgx && NoCoverage(s.raw) && Consistent(s.list, at)
    ensures DisplaysList(s.list, at, Blitted(s.list, s.Handed(), at, |s.list|), s.ovls, s.post2)
  {
    FbPlanned(w, h, s, e);
    LoopHandsOn(s.Env(), s.list, s.raw, s.marks, s.blitAll);
    FbDisplayed(s.Env(), s.list, s.ovls, s.post2, s.blitAll, s.Handed(), at);
  }

  /** What the framebuffer holds at the point: what was blitted, or else what SGX draws. */
  ghost function FbAt(s: Shot, e: Event, m': Machine, tx: Textures, at: seq<Shown>, x: int, y: int): Pixel
    requires |at| == |s.list| == |s.raw| == |s.marks|
  {
    if !e.Reset? then m'.shown(tx, x, y) else Blitted(s.list, s.Handed(), at, |s.list|)
  }

  /**
    Main result: every frame of every run shows the painted list on the internal display, if all
    frames have been faultless up to it and no layer slips through: be it blitted, composed by SGX, or
    all overlays.
   */
  lemma EveryFrameDisplayed(w: int, h: int, shots: seq<Shot>, turns: seq<Turn>, states: seq<Machine>,
                            events: seq<Event>, i: nat, tx: Textures, at: seq<Shown>, x: int, y: int)
    requires ComposerRun(w, h, shots, turns, states, events) && i < |shots|
    requires AllFaultless(w, h, states, events, i + 1) && NoCoverage(shots[i].raw)
    requires OpaqueFormats(tx) && OnScreen(w, h, x, y) && |shots[i].marks| == |shots[i].raw|
    requires Seen(tx, w, h, shots[i].Handed(), at, x, y) && Consistent(shots[i].list, at)
    requires !HasFb(shots[i].ovls, shots[i].post2) ==>
               forall k :: 0 <= k < |shots[i].list| ==> !SlipsThrough(shots[i].Env(), shots[i].list[k])
    ensures DisplaysList(shots[i].list, at, FbAt(shots[i], events[i], states[i + 1], tx, at, x, y),
                         shots[i].ovls, shots[i].post2)
  {
    var s := shots[i];
    assert Taken(w, h, s, events[i]);
    FbPlanned(w, h, s, events[i]);
    if !events[i].Reset? {
      FaultlessRunDisplayed(w, h, shots, turns, states, events, i, tx, at, x, y);
    } else if s.useSgx {
      SgxFrameDisplayed(w, h, s, events[i], at);
    } else {
      OverlayFrameDisplayed(w, h, s, events[i], at, Blitted(s.list, s.Handed(), at, |s.list|));
    }
  }

  /**
    A layer to be skipped is never an overlay (hwc.c:793), and never blitted: such a frame has a
    framebuffer, which SGX composes.
   */
  lemma SkippedGoesToSgx(w: int, h: int, s: Shot, e: Event, i: nat)
    requires Taken(w, h, s, e) && i < |s.raw| && s.raw[i].skip && !s.list[i].valid
    ensures e.Reset? && s.useSgx && HasFb(s.ovls, s.post2)
  {
    CountsSpeak(s.list, s.settings.primaryTransform, i);
    assert s.marks[i] == if s.blitAll then UNMARKED else MarkOf(s.Env(), s.list, i);
    assert s.marks[i] == UNMARKED && s.Handed()[i] == MarkedLayer(s.raw[i], s.marks[i]);
    assert s.Handed()[i].composition == R.FrameBuffer && !R.ValidInput(s.Handed()[i]);
    FbPlanned(w, h, s, e);
  }
}
