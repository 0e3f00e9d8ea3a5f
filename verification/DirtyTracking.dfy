/**
  Which pixels of the framebuffer about to be drawn are already right. Two framebuffers alternate,
  so the target of a frame still holds the frame before the previous one.
 */
module DirtyTracking {
  import opened Geometry
  import opened Pixels
  import opened Layers
  import opened Blits
  import opened Painter
  import opened Stacks

  /** RGZ_NUM_FB: the number of framebuffers, and the age of content that was just changed. */
  const NUM_FB := 2

  /** The negation of `rgz_has_layer_content_changed`. */
  predicate SameContent(a: RgzLayer, b: RgzLayer) {
    if IsBackground(a) && IsBackground(b) then true
    else if a.identity != b.identity then false
    else if IsClearHint(a) && IsClearHint(b) then true
    else a.hwc.handle == b.hwc.handle && a.hwc.transform == b.hwc.transform && a.hwc.crop == b.hwc.crop
  }

  /** `rgz_has_layer_frame_moved`. */
  predicate FrameMoved(a: RgzLayer, b: RgzLayer) {
    a.identity != b.identity || a.hwc.frame != b.hwc.frame
  }

  /** What `rgz_find_layer` returns: the first layer with the identity, or -1. */
  function IndexOf(layers: seq<RgzLayer>, identity: int): (r: int)
    ensures -1 <= r < |layers|
    ensures r >= 0 ==> !IsBackground(layers[r]) && layers[r].identity == identity
    ensures forall k :: 0 <= k < (if r < 0 then |layers| else r) ==>
              IsBackground(layers[k]) || layers[k].identity != identity
  {
    if layers == [] then -1
    else
      var r := IndexOf(layers[..|layers| - 1], identity);
      if r >= 0 then r
      else if !IsBackground(layers[|layers| - 1]) && layers[|layers| - 1].identity == identity then |layers| - 1
      else -1
  }

  /** The layer of the previous frame that layer `i` is compared with. */
  function PreviousOf(prev: seq<RgzLayer>, l: RgzLayer, i: nat): (r: int)
    ensures -1 <= r < |prev|
  {
    if i == 0 then (if prev == [] then -1 else 0) else IndexOf(prev, l.identity)
  }

  function AgedCount(prev: seq<RgzLayer>, l: RgzLayer, p: int): nat
    requires -1 <= p < |prev|
  {
    if p >= 0 && SameContent(l, prev[p]) then (if prev[p].dirty > 0 then prev[p].dirty - 1 else 0)
    else NUM_FB
  }

  /** The dirty count of layer `i` of a new frame. */
  function DirtyCount(prev: seq<RgzLayer>, target: seq<RgzLayer>, l: RgzLayer, i: nat): nat {
    var p := PreviousOf(prev, l, i);
    var t := IndexOf(target, l.identity);
    if p >= 0 && i > 0 && t >= 0 && FrameMoved(l, target[t]) then NUM_FB
    else AgedCount(prev, l, p)
  }

  /** The frames that layer `i` of a new frame damages. */
  function DamagedBy(prev: seq<RgzLayer>, target: seq<RgzLayer>, l: RgzLayer, i: nat): seq<Rect> {
    var p := PreviousOf(prev, l, i);
    var t := IndexOf(target, l.identity);
    if p < 0 then [l.hwc.frame]
    else if i == 0 then []
    else if t < 0 then [l.hwc.frame]
    else if FrameMoved(l, target[t]) then [l.hwc.frame, target[t].hwc.frame]
    else []
  }

  /** `rgz_add_to_damaged_area`; the all-zero rectangle stands for no damage yet. */
  function AddDamage(w: int, h: int, damage: Rect, frame: Rect): Rect {
    var r := ClipTo(w, h, frame);
    if !Intersects(Screen(w, h), frame) then damage
    else if damage == ZERO_RECT then r
    else Rect(Min(damage.left, r.left), Min(damage.top, r.top),
              Max(damage.right, r.right), Max(damage.bottom, r.bottom))
  }

  function AddAll(w: int, h: int, damage: Rect, frames: seq<Rect>): Rect {
    if frames == [] then damage
    else AddDamage(w, h, AddAll(w, h, damage, frames[..|frames| - 1]), frames[|frames| - 1])
  }

  /** The frames damaged by the lowest `k` layers of the new frame. */
  function DamagedFrames(prev: seq<RgzLayer>, target: seq<RgzLayer>, cur: seq<RgzLayer>, k: nat): seq<Rect>
    requires k <= |cur|
  {
    if k == 0 then []
    else DamagedFrames(prev, target, cur, k - 1) + DamagedBy(prev, target, cur[k - 1], k - 1)
  }

  /** The frames of the layers below `k` of the target frame that are gone now. */
  function LostFrames(target: seq<RgzLayer>, cur: seq<RgzLayer>, k: nat): seq<Rect>
    requires k <= |target|
  {
    if k <= 1 then []
    else LostFrames(target, cur, k - 1)
         + if IndexOf(cur, target[k - 1].identity) < 0 then [target[k - 1].hwc.frame] else []
  }

  /** The damaged area `rgz_handle_dirty_region` leaves behind. */
  function Damage(w: int, h: int, prev: seq<RgzLayer>, target: seq<RgzLayer>, cur: seq<RgzLayer>): Rect {
    AddAll(w, h, ZERO_RECT,
           DamagedFrames(prev, target, cur, |cur|) + LostFrames(target, cur, |target|))
  }

  /** A new frame with the dirty counts it is given. */
  ghost predicate Tracked(prev: seq<RgzLayer>, target: seq<RgzLayer>, cur: seq<RgzLayer>, out: seq<RgzLayer>) {
    |out| == |cur| &&
    forall i :: 0 <= i < |cur| ==> out[i] == cur[i].(dirty := DirtyCount(prev, target, cur[i], i))
  }

  // ----- The damaged area -----

  lemma {:induction false} AddAllConcat(w: int, h: int, d: Rect, a: seq<Rect>, b: seq<Rect>)
    ensures AddAll(w, h, d, a + b) == AddAll(w, h, AddAll(w, h, d, a), b)
    decreases |b|
  {
    if b == [] {
      assert a + b == a;
    } else {
      assert (a + b)[..|a + b| - 1] == a + b[..|b| - 1];
      AddAllConcat(w, h, d, a, b[..|b| - 1]);
    }
  }

  /** The damaged area holds every on-screen pixel of every damaged frame. */
  lemma {:induction false} DamageHolds(w: int, h: int, frames: seq<Rect>, f: Rect, x: int, y: int)
    requires f in frames && Contains(f, x, y) && OnScreen(w, h, x, y)
    ensures Contains(AddAll(w, h, ZERO_RECT, frames), x, y)
    decreases |frames|
  {
    var front := frames[..|frames| - 1];
    if f in front {
      DamageHolds(w, h, front, f, x, y);
    } else {
      assert f == frames[|frames| - 1];
    }
  }

  predicate Within(r: Rect, bound: Rect) {
    bound.left <= r.left && r.right <= bound.right && bound.top <= r.top && r.bottom <= bound.bottom
  }

  /** It is no larger than it has to be. */
  lemma {:induction false} DamageWithin(w: int, h: int, frames: seq<Rect>, bound: Rect)
    requires forall f :: f in frames && Intersects(Screen(w, h), f) ==> Within(ClipTo(w, h, f), bound)
    ensures var d := AddAll(w, h, ZERO_RECT, frames); d == ZERO_RECT || Within(d, bound)
    decreases |frames|
  {
    if frames != [] {
      DamageWithin(w, h, frames[..|frames| - 1], bound);
      assert frames[|frames| - 1] in frames;
    }
  }

  /** And it stays on the screen, so it can be used for cutting. */
  lemma {:induction false} DamageOnScreen(w: int, h: int, frames: seq<Rect>)
    requires w > 0 && h > 0
    ensures var d := AddAll(w, h, ZERO_RECT, frames);
            0 <= d.left <= w && 0 <= d.right <= w && 0 <= d.top <= h && 0 <= d.bottom <= h
    decreases |frames|
  {
    if frames != [] {
      DamageOnScreen(w, h, frames[..|frames| - 1]);
    }
  }

  lemma {:induction false} DamagedFrameIn(prev: seq<RgzLayer>, target: seq<RgzLayer>, cur: seq<RgzLayer>,
                                          k: nat, i: nat, f: Rect)
    requires i < k <= |cur| && f in DamagedBy(prev, target, cur[i], i)
    ensures f in DamagedFrames(prev, target, cur, k)
  {
    if i < k - 1 {
      DamagedFrameIn(prev, target, cur, k - 1, i, f);
    }
  }

  lemma {:induction false} LostFrameIn(target: seq<RgzLayer>, cur: seq<RgzLayer>, k: nat, j: nat)
    requires 1 <= j < k <= |target| && IndexOf(cur, target[j].identity) < 0
    ensures target[j].hwc.frame in LostFrames(target, cur, k)
  {
    if j < k - 1 {
      LostFrameIn(target, cur, k - 1, j);
    }
  }

  lemma {:induction false} DamagedFrameFrom(prev: seq<RgzLayer>, target: seq<RgzLayer>, cur: seq<RgzLayer>,
                                            k: nat, f: Rect) returns (i: nat)
    requires k <= |cur| && f in DamagedFrames(prev, target, cur, k)
    ensures i < k && f in DamagedBy(prev, target, cur[i], i)
  {
    if f in DamagedFrames(prev, target, cur, k - 1) {
      i := DamagedFrameFrom(prev, target, cur, k - 1, f);
    } else {
      i := k - 1;
    }
  }

  lemma {:induction false} LostFrameFrom(target: seq<RgzLayer>, cur: seq<RgzLayer>, k: nat, f: Rect) returns (j: nat)
    requires k <= |target| && f in LostFrames(target, cur, k)
    ensures 1 <= j < k && IndexOf(cur, target[j].identity) < 0 && f == target[j].hwc.frame
  {
    if f in LostFrames(target, cur, k - 1) {
      j := LostFrameFrom(target, cur, k - 1, f);
    } else {
      j := k - 1;
    }
  }

  // ----- Stored frames -----

  /** A frame as the regionizer stores it: the screen-sized background, then the layers. */
  ghost predicate FrameState(w: int, h: int, s: seq<RgzLayer>) {
    && |s| >= 1 && SafeHandles(s)
    && IsBackground(s[0]) && s[0].hwc.frame == Screen(w, h)
    && forall i :: 1 <= i < |s| ==> !IsBackground(s[i])
  }

  /** Nothing stored (after a reset), or a frame. */
  ghost predicate Stored(w: int, h: int, s: seq<RgzLayer>) { s == [] || FrameState(w, h, s) }

  ghost predicate Matches(a: RgzLayer, s: seq<RgzLayer>) {
    exists j :: 1 <= j < |s| && SameContent(a, s[j])
  }

  /**
    A dirty count is an age. In the last stored frame, a layer whose count has come down was
    in the frame before it too, with the same content.
   */
  ghost predicate AgeSound(last: seq<RgzLayer>, older: seq<RgzLayer>) {
    forall i :: 0 <= i < |last| && last[i].dirty < NUM_FB ==>
      if i == 0 then older != [] else Matches(last[i], older)
  }

  /** Tracking keeps ages sound, whatever the layers are. */
  lemma TrackingKeepsAges(w: int, h: int, prev: seq<RgzLayer>, target: seq<RgzLayer>,
                          cur: seq<RgzLayer>, out: seq<RgzLayer>)
    requires Stored(w, h, prev) && FrameState(w, h, cur)
    requires Tracked(prev, target, cur, out)
    ensures AgeSound(out, prev)
  {
    forall i | 0 <= i < |out| && out[i].dirty < NUM_FB
      ensures if i == 0 then prev != [] else Matches(out[i], prev)
    {
      var p := PreviousOf(prev, cur[i], i);
      assert p >= 0 && SameContent(out[i], prev[p]);
    }
  }

  lemma SameContentTransitive(a: RgzLayer, b: RgzLayer, c: RgzLayer)
    requires SameContent(a, b) && SameContent(b, c)
    requires !IsBackground(a) && !IsBackground(b) && !IsBackground(c)
    requires SafeHandle(a) && SafeHandle(b) && SafeHandle(c)
    ensures SameContent(a, c)
  {
  }

  // ----- Conditions on consecutive frames that the code does not check -----

  ghost predicate UniqueIdentities(s: seq<RgzLayer>) {
    forall i, j :: 1 <= i < j < |s| ==> s[i].identity != s[j].identity
  }

  /** An identity keeps its blending mode from the target frame to the current one. */
  ghost predicate KeepsBlending(cur: seq<RgzLayer>, target: seq<RgzLayer>) {
    forall i, j :: 1 <= i < |cur| && 1 <= j < |target| && cur[i].identity == target[j].identity ==>
      cur[i].hwc.blending == target[j].hwc.blending
  }

  /** If layers i < i' of the one frame overlap, and are j and j' of the other, then j < j'. */
  predicate InOrder(cur: seq<RgzLayer>, i: int, i': int, target: seq<RgzLayer>, j: int, j': int) {
    1 <= i < i' < |cur| && 1 <= j < |target| && 1 <= j' < |target|
    && cur[i].identity == target[j].identity && cur[i'].identity == target[j'].identity
    && Intersects(cur[i].hwc.frame, cur[i'].hwc.frame)
    ==> j < j'
  }

  /** Two identities keep their relative z-order, at least where they overlap. */
  ghost predicate KeepsOrder(cur: seq<RgzLayer>, target: seq<RgzLayer>) {
    forall i, i', j, j' :: InOrder(cur, i, i', target, j, j')
  }

  /** A layer in the current and the target frame, but not in the one between, has not moved. */
  ghost predicate ReturnsInPlace(cur: seq<RgzLayer>, prev: seq<RgzLayer>, target: seq<RgzLayer>) {
    forall i, j :: 1 <= i < |cur| && 1 <= j < |target| && cur[i].identity == target[j].identity
                   && IndexOf(prev, cur[i].identity) < 0
                   ==> cur[i].hwc.frame == target[j].hwc.frame
  }

  ghost predicate Steady(cur: seq<RgzLayer>, prev: seq<RgzLayer>, target: seq<RgzLayer>) {
    && UniqueIdentities(cur) && UniqueIdentities(target)
    && KeepsBlending(cur, target) && KeepsOrder(cur, target) && ReturnsInPlace(cur, prev, target)
  }

  // ----- A pixel that is not redrawn is right already -----

  /** What tracking knows at one pixel: the same layers cover it in both frames, in place. */
  ghost predicate SameCover(cur: seq<RgzLayer>, i: nat, target: seq<RgzLayer>, j: nat, x: int, y: int)
    requires i <= |cur| && j <= |target|
  {
    CoveredBy(cur, i, target, j, x, y) && CoveredBy(target, j, cur, i, x, y)
  }

  ghost predicate CoveredBy(s: seq<RgzLayer>, i: nat, t: seq<RgzLayer>, j: nat, x: int, y: int)
    requires i <= |s| && j <= |t|
  {
    forall a {:trigger Covered(s[a], t, j, x, y)} ::
      1 <= a < i && Contains(s[a].hwc.frame, x, y) ==> Covered(s[a], t, j, x, y)
  }

  ghost predicate Covered(l: RgzLayer, s: seq<RgzLayer>, k: nat, x: int, y: int)
    requires k <= |s|
  {
    exists b :: 1 <= b < k && s[b].identity == l.identity && Contains(s[b].hwc.frame, x, y)
  }

  /**
    A layer of the current frame that was away for one frame, and whose place in the target frame
    holds the pixel. The code never damages that place.
   */
  ghost predicate ReturnedOver(cur: seq<RgzLayer>, prev: seq<RgzLayer>, target: seq<RgzLayer>, x: int, y: int) {
    exists i, j :: 1 <= i < |cur| && 1 <= j < |target| && cur[i].identity == target[j].identity
                   && IndexOf(prev, cur[i].identity) < 0 && Contains(target[j].hwc.frame, x, y)
  }

  /**
    Outside the damaged area the current and the target frame cover a pixel alike, exactly if no
    returning layer was there.
   */
  lemma UndamagedCoverExactly(w: int, h: int, prev: seq<RgzLayer>, target: seq<RgzLayer>,
                              cur: seq<RgzLayer>, x: int, y: int)
    requires Stored(w, h, prev) && FrameState(w, h, target) && FrameState(w, h, cur)
    requires UniqueIdentities(cur) && UniqueIdentities(target) && OnScreen(w, h, x, y)
    requires !Contains(Damage(w, h, prev, target, cur), x, y)
    ensures SameCover(cur, |cur|, target, |target|, x, y) <==> !ReturnedOver(cur, prev, target, x, y)
  {
    if ReturnedOver(cur, prev, target, x, y) {
      var i, j :| 1 <= i < |cur| && 1 <= j < |target| && cur[i].identity == target[j].identity
                  && IndexOf(prev, cur[i].identity) < 0 && Contains(target[j].hwc.frame, x, y);
      UndamagedElsewhere(w, h, prev, target, cur, i, x, y);
      forall b | 1 <= b < |cur| && cur[b].identity == target[j].identity
        ensures !Contains(cur[b].hwc.frame, x, y)
      {
        assert b == i;
      }
      assert !Covered(target[j], cur, |cur|, x, y);
      assert !CoveredBy(target, |target|, cur, |cur|, x, y);
    } else {
      UndamagedCovers(w, h, prev, target, cur, x, y);
    }
  }

  /** Every layer's damage lies elsewhere. */
  lemma UndamagedElsewhere(w: int, h: int, prev: seq<RgzLayer>, target: seq<RgzLayer>,
                           cur: seq<RgzLayer>, i: nat, x: int, y: int)
    requires OnScreen(w, h, x, y) && i < |cur| && !Contains(Damage(w, h, prev, target, cur), x, y)
    ensures forall f :: f in DamagedBy(prev, target, cur[i], i) ==> !Contains(f, x, y)
  {
    var frames := DamagedFrames(prev, target, cur, |cur|) + LostFrames(target, cur, |target|);
    forall f | f in DamagedBy(prev, target, cur[i], i) && Contains(f, x, y) ensures false {
      DamagedFrameIn(prev, target, cur, |cur|, i, f);
      DamageHolds(w, h, frames, f, x, y);
    }
  }

  lemma UndamagedCovers(w: int, h: int, prev: seq<RgzLayer>, target: seq<RgzLayer>,
                        cur: seq<RgzLayer>, x: int, y: int)
    requires Stored(w, h, prev) && FrameState(w, h, target) && FrameState(w, h, cur)
    requires UniqueIdentities(cur) && UniqueIdentities(target) && OnScreen(w, h, x, y)
    requires !Contains(Damage(w, h, prev, target, cur), x, y) && !ReturnedOver(cur, prev, target, x, y)
    ensures SameCover(cur, |cur|, target, |target|, x, y)
  {
    forall a | 1 <= a < |cur| && Contains(cur[a].hwc.frame, x, y)
      ensures Covered(cur[a], target, |target|, x, y)
    {
      UndamagedElsewhere(w, h, prev, target, cur, a, x, y);
      assert cur[a].hwc.frame !in DamagedBy(prev, target, cur[a], a);
      var t := IndexOf(target, cur[a].identity);
      assert t >= 1 && target[t].hwc.frame == cur[a].hwc.frame;
    }
    forall b | 1 <= b < |target| && Contains(target[b].hwc.frame, x, y)
      ensures Covered(target[b], cur, |cur|, x, y)
    {
      var f := target[b].hwc.frame;
      var a := IndexOf(cur, target[b].identity);
      if a < 0 {
        var frames := DamagedFrames(prev, target, cur, |cur|) + LostFrames(target, cur, |target|);
        LostFrameIn(target, cur, |target|, b);
        DamageHolds(w, h, frames, f, x, y);
      } else {
        UndamagedElsewhere(w, h, prev, target, cur, a, x, y);
        assert IndexOf(target, cur[a].identity) == b;
        assert f in DamagedBy(prev, target, cur[a], a) || cur[a].hwc.frame == f;
      }
    }
  }

  /**
    Ages are sound: a dirty count of zero means that the same content is in the previous and in the
    target frame, and that the first layer there with the identity has the same place. With unique
    identities it is that layer's content.
   */
  lemma CleanLayerUnchanged(w: int, h: int, prev: seq<RgzLayer>, target: seq<RgzLayer>,
                            cur: seq<RgzLayer>, out: seq<RgzLayer>, i: nat)
    requires Stored(w, h, prev) && Stored(w, h, target) && FrameState(w, h, cur)
    requires AgeSound(prev, target) && Tracked(prev, target, cur, out)
    requires 1 <= i < |out| && out[i].dirty == 0
    ensures Matches(out[i], prev) && Matches(out[i], target)
    ensures var t := IndexOf(target, out[i].identity);
            t >= 1 && out[i].hwc.frame == target[t].hwc.frame
            && (UniqueIdentities(target) ==> SameContent(out[i], target[t]))
  {
    var p := IndexOf(prev, cur[i].identity);
    assert p >= 1 && SameContent(cur[i], prev[p]) && prev[p].dirty < NUM_FB;
    var m :| 1 <= m < |target| && SameContent(prev[p], target[m]);
    SameContentTransitive(cur[i], prev[p], target[m]);
  }

  /** Layers that agree in all that tracking compares, and in blending, read and hide the same. */
  lemma UnchangedReads(w: int, h: int, a: RgzLayer, b: RgzLayer, x: int, y: int)
    requires SafeHandle(a) && SafeHandle(b) && !IsBackground(a) && !IsBackground(b)
    requires SameContent(a, b) && a.hwc.frame == b.hwc.frame && a.hwc.blending == b.hwc.blending
    ensures IsImage(a) == IsImage(b) && Replaces(a) == Replaces(b)
    ensures IsImage(a) ==> ReadVia(Whole, w, h, a.hwc, x, y) == ReadVia(Whole, w, h, b.hwc, x, y)
  {
  }

  /** A top layer that does not cover the pixel can be skipped on either side. */
  lemma CoverSkips(s: seq<RgzLayer>, i: nat, t: seq<RgzLayer>, j: nat, x: int, y: int)
    requires 1 < i <= |s| && j <= |t| && !Contains(s[i - 1].hwc.frame, x, y)
    requires SameCover(s, i, t, j, x, y) || SameCover(t, j, s, i, x, y)
    ensures SameCover(s, i - 1, t, j, x, y) && SameCover(t, j, s, i - 1, x, y)
  {
    forall b | 1 <= b < j && Contains(t[b].hwc.frame, x, y) ensures Covered(t[b], s, i - 1, x, y) {
      assert Covered(t[b], s, i, x, y);
    }
  }

  /** Under the conditions that the code does not check, a clean pixel reads the same as before. */
  lemma {:induction false} CleanPixelUnchanged(
      w: int, h: int, prev: seq<RgzLayer>, target: seq<RgzLayer>, cur: seq<RgzLayer>,
      out: seq<RgzLayer>, i: nat, j: nat, x: int, y: int)
    requires OnScreen(w, h, x, y)
    requires Stored(w, h, prev) && FrameState(w, h, target) && FrameState(w, h, cur)
    requires AgeSound(prev, target) && Tracked(prev, target, cur, out) && Steady(out, prev, target)
    requires 1 <= i <= |out| && 1 <= j <= |target| && FrameState(w, h, out)
    requires SameCover(out, i, target, j, x, y) && !VisibleDirty(out, i, x, y)
    ensures Stack(w, h, Whole, out, i, x, y) == Stack(w, h, Whole, target, j, x, y)
    decreases i + j
  {
    if i == 1 && j > 1 {
      OnlyBackgroundCovers(target, j, out, x, y);
    }
    if i > 1 && !Contains(out[i - 1].hwc.frame, x, y) {
      CoverSkips(out, i, target, j, x, y);
      CleanPixelUnchanged(w, h, prev, target, cur, out, i - 1, j, x, y);
    } else if j > 1 && !Contains(target[j - 1].hwc.frame, x, y) {
      CoverSkips(target, j, out, i, x, y);
      CleanPixelUnchanged(w, h, prev, target, cur, out, i, j - 1, x, y);
    } else if i > 1 {
      TopUnchanged(w, h, prev, target, cur, out, i, j, x, y);
      if !Replaces(out[i - 1]) {
        CleanPixelUnchanged(w, h, prev, target, cur, out, i - 1, j - 1, x, y);
      }
      MatchedTopsRead(w, h, out, i, target, j, x, y);
    }
  }

  /** The topmost layers that cover a clean pixel agree in all that matters, and so does what is below. */
  lemma TopUnchanged(w: int, h: int, prev: seq<RgzLayer>, target: seq<RgzLayer>, cur: seq<RgzLayer>,
                     out: seq<RgzLayer>, i: nat, j: nat, x: int, y: int)
    requires Stored(w, h, prev) && FrameState(w, h, target) && FrameState(w, h, cur) && FrameState(w, h, out)
    requires AgeSound(prev, target) && Tracked(prev, target, cur, out) && Steady(out, prev, target)
    requires 1 < i <= |out| && 1 <= j <= |target| && SameCover(out, i, target, j, x, y)
    requires Contains(out[i - 1].hwc.frame, x, y) && out[i - 1].dirty == 0
    requires j > 1 ==> Contains(target[j - 1].hwc.frame, x, y)
    ensures j > 1 && SameCover(out, i - 1, target, j - 1, x, y)
    ensures SameContent(out[i - 1], target[j - 1]) && out[i - 1].hwc.frame == target[j - 1].hwc.frame
    ensures out[i - 1].hwc.blending == target[j - 1].hwc.blending
  {
    TopsMatch(out, i, target, j, x, y);
    CoverBelow(out, i, target, j, x, y);
    CoverBelow(target, j, out, i, x, y);
    CleanLayerUnchanged(w, h, prev, target, cur, out, i - 1);
    assert IndexOf(target, out[i - 1].identity) == j - 1;
  }

  lemma OnlyBackgroundCovers(s: seq<RgzLayer>, i: nat, t: seq<RgzLayer>, x: int, y: int)
    requires 1 < i <= |s| && 1 <= |t| && CoveredBy(s, i, t, 1, x, y)
    ensures !Contains(s[i - 1].hwc.frame, x, y)
  {
    assert !Covered(s[i - 1], t, 1, x, y);
  }

  lemma MatchedTopsRead(w: int, h: int, s: seq<RgzLayer>, i: nat, t: seq<RgzLayer>, j: nat, x: int, y: int)
    requires SafeHandles(s) && SafeHandles(t)
    requires 1 < i <= |s| && 1 < j <= |t| && !IsBackground(s[i - 1]) && !IsBackground(t[j - 1])
    requires Contains(s[i - 1].hwc.frame, x, y)
    requires SameContent(s[i - 1], t[j - 1]) && s[i - 1].hwc.frame == t[j - 1].hwc.frame
    requires s[i - 1].hwc.blending == t[j - 1].hwc.blending
    requires Replaces(s[i - 1]) || Stack(w, h, Whole, s, i - 1, x, y) == Stack(w, h, Whole, t, j - 1, x, y)
    ensures Stack(w, h, Whole, s, i, x, y) == Stack(w, h, Whole, t, j, x, y)
  {
    UnchangedReads(w, h, s[i - 1], t[j - 1], x, y);
  }

  /** The topmost covering layers of two frames with the same cover are the same layer. */
  lemma TopsMatch(cur: seq<RgzLayer>, i: nat, target: seq<RgzLayer>, j: nat, x: int, y: int)
    requires 1 < i <= |cur| && 1 <= j <= |target|
    requires UniqueIdentities(cur) && UniqueIdentities(target) && KeepsOrder(cur, target)
    requires SameCover(cur, i, target, j, x, y)
    requires Contains(cur[i - 1].hwc.frame, x, y)
    requires j > 1 ==> Contains(target[j - 1].hwc.frame, x, y)
    ensures j > 1 && cur[i - 1].identity == target[j - 1].identity
  {
    assert Covered(cur[i - 1], target, j, x, y);
    var b :| 1 <= b < j && target[b].identity == cur[i - 1].identity && Contains(target[b].hwc.frame, x, y);
    assert Covered(target[j - 1], cur, i, x, y);
    var a :| 1 <= a < i && cur[a].identity == target[j - 1].identity && Contains(cur[a].hwc.frame, x, y);
    CrossingTops(cur, i - 1, a, target, j - 1, b);
  }

  /** If each of two tops is matched somewhere at or below the other, they match each other. */
  lemma CrossingTops(cur: seq<RgzLayer>, i: nat, a: nat, target: seq<RgzLayer>, j: nat, b: nat)
    requires 1 <= a <= i < |cur| && 1 <= b <= j < |target|
    requires UniqueIdentities(target) && KeepsOrder(cur, target)
    requires cur[i].identity == target[b].identity && cur[a].identity == target[j].identity
    requires Intersects(cur[a].hwc.frame, cur[i].hwc.frame)
    ensures cur[i].identity == target[j].identity
  {
    assert InOrder(cur, a, i, target, j, b);
  }

  /** Below matching tops the cover is the same again. */
  lemma CoverBelow(s: seq<RgzLayer>, i: nat, t: seq<RgzLayer>, j: nat, x: int, y: int)
    requires 1 < i <= |s| && 1 < j <= |t| && UniqueIdentities(s)
    requires s[i - 1].identity == t[j - 1].identity
    requires SameCover(s, i, t, j, x, y)
    ensures CoveredBy(s, i - 1, t, j - 1, x, y)
  {
    forall a | 1 <= a < i - 1 && Contains(s[a].hwc.frame, x, y) ensures Covered(s[a], t, j - 1, x, y) {
      assert Covered(s[a], t, j, x, y);
      assert s[a].identity != s[i - 1].identity;
    }
  }

  /** Counts play no part in identities, frames and order. */
  lemma CountsAside(prev: seq<RgzLayer>, target: seq<RgzLayer>, cur: seq<RgzLayer>, out: seq<RgzLayer>)
    requires Tracked(prev, target, cur, out) && Steady(cur, prev, target)
    ensures Steady(out, prev, target)
  {
    forall i, i', j, j' ensures InOrder(out, i, i', target, j, j') {
      assert InOrder(cur, i, i', target, j, j');
    }
  }

  lemma CoverCountsAside(prev: seq<RgzLayer>, target: seq<RgzLayer>, cur: seq<RgzLayer>, out: seq<RgzLayer>,
                         x: int, y: int)
    requires Tracked(prev, target, cur, out) && SameCover(cur, |cur|, target, |target|, x, y)
    ensures SameCover(out, |out|, target, |target|, x, y)
  {
    forall b | 1 <= b < |target| && Contains(target[b].hwc.frame, x, y)
      ensures Covered(target[b], out, |out|, x, y)
    {
      assert Covered(target[b], cur, |cur|, x, y);
      var a :| 1 <= a < |cur| && cur[a].identity == target[b].identity && Contains(cur[a].hwc.frame, x, y);
      assert out[a].identity == cur[a].identity;
    }
    forall a | 1 <= a < |out| && Contains(out[a].hwc.frame, x, y)
      ensures Covered(out[a], target, |target|, x, y)
    {
      assert Covered(cur[a], target, |target|, x, y);
    }
  }

  /** Under these conditions a pixel that is not redrawn reads the same in the current and the target frame. */
  lemma NotRedrawnIsRight(w: int, h: int, prev: seq<RgzLayer>, target: seq<RgzLayer>,
                          cur: seq<RgzLayer>, out: seq<RgzLayer>, x: int, y: int)
    requires OnScreen(w, h, x, y)
    requires Stored(w, h, prev) && FrameState(w, h, target) && FrameState(w, h, cur) && SafeHandles(out)
    requires AgeSound(prev, target) && Tracked(prev, target, cur, out) && Steady(cur, prev, target)
    requires !Redrawn(out, Damage(w, h, prev, target, cur), x, y)
    ensures VisibleStack(w, h, out, x, y) == VisibleStack(w, h, target, x, y)
  {
    UndamagedElsewhereOrInPlace(w, h, prev, target, cur, x, y);
    UndamagedCoverExactly(w, h, prev, target, cur, x, y);
    CoverCountsAside(prev, target, cur, out, x, y);
    CountsAside(prev, target, cur, out);
    CleanPixelUnchanged(w, h, prev, target, cur, out, |out|, |target|, x, y);
  }

  /** A layer that returns in place is damaged itself. */
  lemma UndamagedElsewhereOrInPlace(w: int, h: int, prev: seq<RgzLayer>, target: seq<RgzLayer>,
                                    cur: seq<RgzLayer>, x: int, y: int)
    requires FrameState(w, h, cur) && OnScreen(w, h, x, y) && ReturnsInPlace(cur, prev, target)
    requires !Contains(Damage(w, h, prev, target, cur), x, y)
    ensures !ReturnedOver(cur, prev, target, x, y)
  {
    forall i | 1 <= i < |cur| && IndexOf(prev, cur[i].identity) < 0 ensures !Contains(cur[i].hwc.frame, x, y) {
      UndamagedElsewhere(w, h, prev, target, cur, i, x, y);
    }
  }

  /** Without a stored target frame every pixel is redrawn. */
  lemma NoTargetRedrawsAll(w: int, h: int, prev: seq<RgzLayer>, cur: seq<RgzLayer>, out: seq<RgzLayer>,
                           x: int, y: int)
    requires OnScreen(w, h, x, y) && Stored(w, h, prev) && FrameState(w, h, cur) && FrameState(w, h, out)
    requires AgeSound(prev, []) && Tracked(prev, [], cur, out)
    ensures Redrawn(out, Damage(w, h, prev, [], cur), x, y)
  {
    if exists a :: 1 <= a < |cur| && Contains(cur[a].hwc.frame, x, y) {
      var a :| 1 <= a < |cur| && Contains(cur[a].hwc.frame, x, y);
      var f := cur[a].hwc.frame;
      DamagedFrameIn(prev, [], cur, |cur|, a, f);
      DamageHolds(w, h, DamagedFrames(prev, [], cur, |cur|) + LostFrames([], cur, 0), f, x, y);
    } else {
      BackgroundVisible(w, h, out, |out|, x, y);
    }
  }

  lemma {:induction false} BackgroundVisible(w: int, h: int, s: seq<RgzLayer>, k: nat, x: int, y: int)
    requires FrameState(w, h, s) && OnScreen(w, h, x, y) && 1 <= k <= |s| && s[0].dirty > 0
    requires forall a :: 1 <= a < k ==> !Contains(s[a].hwc.frame, x, y)
    ensures VisibleDirty(s, k, x, y)
  {
    if k > 1 {
      BackgroundVisible(w, h, s, k - 1, x, y);
    }
  }

  // ----- A screen that stands still -----

  /** Dirty counts are ages up to the number of framebuffers. */
  predicate Bounded(s: seq<RgzLayer>, max: nat) { forall i :: 0 <= i < |s| ==> s[i].dirty <= max }

  /** The frame `raw`, with some dirty counts. */
  predicate Counted(raw: seq<RgzLayer>, s: seq<RgzLayer>) {
    |s| == |raw| && forall i :: 0 <= i < |s| ==> s[i] == raw[i].(dirty := s[i].dirty)
  }

  lemma IndexOfCopy(w: int, h: int, raw: seq<RgzLayer>, s: seq<RgzLayer>, i: nat)
    requires FrameState(w, h, raw) && UniqueIdentities(raw) && Counted(raw, s) && 1 <= i < |raw|
    ensures IndexOf(s, raw[i].identity) == i
  {
    assert s[i] == raw[i].(dirty := s[i].dirty);
    var k := IndexOf(s, raw[i].identity);
    assert s[k] == raw[k].(dirty := s[k].dirty);
  }

  /** Counts never exceed the number of framebuffers. */
  lemma TrackedBounded(prev: seq<RgzLayer>, target: seq<RgzLayer>, raw: seq<RgzLayer>, out: seq<RgzLayer>)
    requires Tracked(prev, target, raw, out) && Bounded(prev, NUM_FB)
    ensures Counted(raw, out) && Bounded(out, NUM_FB)
  {
  }

  /** The same frame again, where no layer has moved since the target frame: counts come down by one. */
  lemma AgainAges(w: int, h: int, raw: seq<RgzLayer>, prev: seq<RgzLayer>, target: seq<RgzLayer>, out: seq<RgzLayer>,
                  max: nat)
    requires FrameState(w, h, raw) && UniqueIdentities(raw) && Tracked(prev, target, raw, out)
    requires Counted(raw, prev) && Counted(raw, target) && Bounded(prev, max + 1)
    ensures Counted(raw, out) && Bounded(out, max)
  {
    forall i | 0 <= i < |raw| ensures out[i].dirty <= max {
      if i > 0 {
        IndexOfCopy(w, h, raw, prev, i);
        IndexOfCopy(w, h, raw, target, i);
      }
      assert prev[i] == raw[i].(dirty := prev[i].dirty) && target[i] == raw[i].(dirty := target[i].dirty);
    }
  }

  /** And if it has not, nothing is damaged. */
  lemma {:induction false} AgainUndamaged(w: int, h: int, raw: seq<RgzLayer>, prev: seq<RgzLayer>,
                                          target: seq<RgzLayer>, k: nat)
    requires FrameState(w, h, raw) && UniqueIdentities(raw) && Counted(raw, prev) && Counted(raw, target) && k <= |raw|
    ensures DamagedFrames(prev, target, raw, k) == [] && LostFrames(target, raw, k) == []
  {
    if k > 0 {
      AgainUndamaged(w, h, raw, prev, target, k - 1);
      if k > 1 {
        IndexOfCopy(w, h, raw, prev, k - 1);
        IndexOfCopy(w, h, raw, target, k - 1);
        IndexOfCopy(w, h, raw, raw, k - 1);
        assert target[k - 1] == raw[k - 1].(dirty := target[k - 1].dirty);
      }
    }
  }

  lemma {:induction false} CleanUnseen(s: seq<RgzLayer>, k: nat, x: int, y: int)
    requires k <= |s| && SafeHandles(s) && Bounded(s, 0)
    ensures !VisibleDirty(s, k, x, y)
  {
    if k > 0 {
      CleanUnseen(s, k - 1, x, y);
    }
  }

  lemma RestsOnce(w: int, h: int, raw: seq<RgzLayer>, prev: seq<RgzLayer>, target: seq<RgzLayer>, out: seq<RgzLayer>,
                  x: int, y: int)
    requires FrameState(w, h, raw) && UniqueIdentities(raw) && Counted(raw, prev) && Counted(raw, target)
    requires Bounded(out, 0) && SafeHandles(out)
    ensures !Redrawn(out, Damage(w, h, prev, target, raw), x, y)
  {
    AgainUndamaged(w, h, raw, prev, target, |raw|);
    var none: seq<Rect> := [];
    assert none + none == none;
    CleanUnseen(out, |out|, x, y);
  }

  lemma CountedSafe(raw: seq<RgzLayer>, s: seq<RgzLayer>)
    requires SafeHandles(raw) && Counted(raw, s)
    ensures SafeHandles(s)
  {
    forall i | 0 <= i < |s| ensures SafeHandle(s[i]) {
      assert SafeHandle(raw[i]);
    }
  }

  /**
    Main result: a screen that stands still comes to rest. When one frame is presented four times in a
    row, with unique identities, the fourth time no pixel is redrawn, whatever was shown before.
   */
  lemma StillScreenRests(w: int, h: int, raw: seq<RgzLayer>, older: seq<RgzLayer>, last: seq<RgzLayer>,
                         f1: seq<RgzLayer>, f2: seq<RgzLayer>, f3: seq<RgzLayer>, f4: seq<RgzLayer>, x: int, y: int)
    requires FrameState(w, h, raw) && UniqueIdentities(raw) && Bounded(last, NUM_FB)
    requires Tracked(last, older, raw, f1) && Tracked(f1, last, raw, f2)
    requires Tracked(f2, f1, raw, f3) && Tracked(f3, f2, raw, f4)
    ensures SafeHandles(f4) && !Redrawn(f4, Damage(w, h, f3, f2, raw), x, y)
  {
    TrackedBounded(last, older, raw, f1);
    TrackedBounded(f1, last, raw, f2);
    AgainAges(w, h, raw, f2, f1, f3, 1);
    AgainAges(w, h, raw, f3, f2, f4, 0);
    CountedSafe(raw, f4);
    RestsOnce(w, h, raw, f3, f2, f4, x, y);
  }
}
