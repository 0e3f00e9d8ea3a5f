/**
  What the display shows at one screen point: overlay planes and the framebuffer plane, blended by
  z-order, against the painter's algorithm on the layer list.
 */
module Planes {
  import opened Pixels
  import opened Planner

  /** What a layer has at the point: nothing outside its frame. */
  datatype Shown = Nothing | Colour(p: Pixel)

  /** Layers without blending hide what is below them. */
  ghost predicate Consistent(list: seq<Layer>, at: seq<Shown>) {
    |at| == |list| &&
    forall i :: 0 <= i < |list| && at[i].Colour? && !list[i].blended ==> at[i].p.a == 1.0
  }

  function Put(blended: bool, s: Shown, below: Pixel): Pixel {
    match s
    case Nothing => below
    case Colour(p) => if blended then Over(p, below) else p
  }

  /** The painter's algorithm on the first `k` layers. */
  function PaintList(list: seq<Layer>, at: seq<Shown>, k: nat): Pixel
    requires k <= |list| == |at|
  {
    if k == 0 then CLEAR else Put(list[k - 1].blended, at[k - 1], PaintList(list, at, k - 1))
  }

  /**
    The framebuffer after the first `k` layers: layers without an overlay are drawn, and overlays
    without blending carry the hint that clears their place.
   */
  function FbContent(e: Env, list: seq<Layer>, at: seq<Shown>, k: nat): Pixel
    requires k <= |list| == |at|
  {
    if k == 0 then CLEAR
    else
      var below := FbContent(e, list, at, k - 1);
      if !Accepts(e, Choose(e, list, k - 1), list[k - 1]) then Put(list[k - 1].blended, at[k - 1], below)
      else if !list[k - 1].blended && at[k - 1].Colour? then CLEAR
      else below
  }

  /** A plane of the display: the framebuffer, or the overlay of a layer. */
  datatype Plane = FbPlane(zorder: int) | OverlayPlane(layer: nat, zorder: int)

  ghost predicate HasPlane(planes: seq<Plane>, z: int) {
    exists k :: 0 <= k < |planes| && planes[k].zorder == z
  }

  /** Every z-order from 0 up belongs to exactly one plane. */
  ghost predicate Stacked(planes: seq<Plane>) {
    && (forall z :: 0 <= z < |planes| ==> HasPlane(planes, z))
    && (forall k :: 0 <= k < |planes| ==> 0 <= planes[k].zorder < |planes|)
    && (forall j, k :: 0 <= j < k < |planes| ==> planes[j].zorder != planes[k].zorder)
  }

  function ShowPlane(list: seq<Layer>, at: seq<Shown>, fb: Pixel, p: Plane, below: Pixel): Pixel
    requires |at| == |list| && (p.OverlayPlane? ==> p.layer < |list|)
  {
    match p
    case FbPlane(_) => Over(fb, below)
    case OverlayPlane(i, _) => Put(list[i].blended, at[i], below)
  }

  /** Blending the planes with z-orders below `z`, from the lowest up. */
  ghost function Display(list: seq<Layer>, at: seq<Shown>, fb: Pixel, planes: seq<Plane>, z: nat): Pixel
    requires |at| == |list| && Stacked(planes) && z <= |planes|
    requires forall k :: 0 <= k < |planes| && planes[k].OverlayPlane? ==> planes[k].layer < |list|
  {
    if z == 0 then CLEAR
    else
      assert HasPlane(planes, z - 1);
      var k :| 0 <= k < |planes| && planes[k].zorder == z - 1;
      ShowPlane(list, at, fb, planes[k], Display(list, at, fb, planes, z - 1))
  }

  /** The planes of a plan with a framebuffer, as the code leaves them. */
  ghost predicate PlanesOf(p: Plan, n: nat, planes: seq<Plane>) {
    && |planes| == |p.acc| + 1 && 0 <= p.fbZ <= |p.acc|
    && planes[0] == FbPlane(p.fbZ)
    && (forall k :: 0 <= k < |p.acc| ==> p.acc[k] < n)
    && forall k :: 1 <= k < |planes| ==>
         planes[k] == OverlayPlane(p.acc[k - 1], if k - 1 < p.fbZ then k - 1 else k)
  }

  lemma PlanesStacked(p: Plan, n: nat, planes: seq<Plane>)
    requires PlanesOf(p, n, planes)
    ensures Stacked(planes)
  {
    forall z | 0 <= z < |planes| ensures HasPlane(planes, z) {
      var k := if z == p.fbZ then 0 else if z < p.fbZ then z + 1 else z;
      assert planes[k].zorder == z;
    }
  }

  /** The accepted overlays `lo..hi` of a plan, painted onto `base`. */
  function PaintAcc(list: seq<Layer>, at: seq<Shown>, acc: seq<nat>, lo: nat, hi: nat, base: Pixel): Pixel
    requires lo <= hi <= |acc| && |at| == |list|
    requires forall k :: 0 <= k < |acc| ==> acc[k] < |list|
  {
    if lo == hi then base
    else Put(list[acc[hi - 1]].blended, at[acc[hi - 1]], PaintAcc(list, at, acc, lo, hi - 1, base))
  }

  lemma {:induction false} PaintAccPrefix(list: seq<Layer>, at: seq<Shown>, acc: seq<nat>, more: seq<nat>,
                                          lo: nat, hi: nat, base: Pixel)
    requires lo <= hi <= |acc| && |at| == |list|
    requires forall k :: 0 <= k < |acc + more| ==> (acc + more)[k] < |list|
    requires forall k :: 0 <= k < |acc| ==> acc[k] < |list|
    ensures PaintAcc(list, at, acc + more, lo, hi, base) == PaintAcc(list, at, acc, lo, hi, base)
    decreases hi
  {
    if lo < hi {
      PaintAccPrefix(list, at, acc, more, lo, hi - 1, base);
    }
  }

  /** Display order is: overlays below the framebuffer, the framebuffer, overlays above it. */
  lemma {:induction false} DisplayIs(list: seq<Layer>, at: seq<Shown>, fb: Pixel, p: Plan, planes: seq<Plane>, z: nat)
    requires |at| == |list| && PlanesOf(p, |list|, planes) && Stacked(planes) && z <= |planes|
    ensures Display(list, at, fb, planes, z)
            == if z <= p.fbZ then PaintAcc(list, at, p.acc, 0, z, CLEAR)
               else PaintAcc(list, at, p.acc, p.fbZ, z - 1, Over(fb, PaintAcc(list, at, p.acc, 0, p.fbZ, CLEAR)))
  {
    if z > 0 {
      DisplayIs(list, at, fb, p, planes, z - 1);
      var k := if z - 1 == p.fbZ then 0 else if z - 1 < p.fbZ then z else z - 1;
      assert planes[k].zorder == z - 1;
    }
  }

  // ----- The framebuffer on top of everything so far is right -----

  lemma OpaqueHides(p: Pixel, q: Pixel)
    requires p.a == 1.0
    ensures Over(p, q) == p
  {
    OverOpaque(p, q);
  }

  lemma ClearShows(q: Pixel)
    ensures Over(CLEAR, q) == q
  {
  }

  /** Before the first layer without an overlay the framebuffer is empty. */
  lemma {:induction false} NoFbYet(e: Env, list: seq<Layer>, at: seq<Shown>, k: nat)
    requires k <= |list| == |at| && e.useSgx && Choose(e, list, k).fbZ < 0
    ensures FbContent(e, list, at, k) == CLEAR
  {
    if k > 0 {
      ChooseShape(e, list, k - 1);
      NoFbYet(e, list, at, k - 1);
    }
  }

  /** One more layer drawn into the framebuffer, seen over what is below the framebuffer. */
  lemma DrawnIntoFb(blended: bool, s: Shown, fb: Pixel, low: Pixel)
    requires s.Colour? && !blended ==> s.p.a == 1.0
    ensures Over(Put(blended, s, fb), low) == Put(blended, s, Over(fb, low))
  {
    if s.Colour? {
      if blended { OverAssociative(s.p, fb, low); } else { OpaqueHides(s.p, low); }
    }
  }

  /** One more overlay instead: it comes out right below a framebuffer that is empty or has a hole. */
  lemma BesideFb(blended: bool, s: Shown, fb: Pixel, low: Pixel)
    requires blended ==> fb == CLEAR
    ensures Over(if !blended && s.Colour? then CLEAR else fb, Put(blended, s, low)) == Put(blended, s, Over(fb, low))
  {
    ClearShows(low);
    ClearShows(Put(blended, s, low));
  }

  /** The framebuffer over all overlays so far is the painted list. */
  ghost predicate OnTop(e: Env, list: seq<Layer>, at: seq<Shown>, k: nat)
    requires k <= |list| == |at|
  {
    var acc := Choose(e, list, k).acc;
    && (forall j :: 0 <= j < |acc| ==> acc[j] < |list|)
    && Over(FbContent(e, list, at, k), PaintAcc(list, at, acc, 0, |acc|, CLEAR)) == PaintList(list, at, k)
  }

  lemma AcceptedOnTop(e: Env, list: seq<Layer>, at: seq<Shown>, k: nat)
    requires 1 <= k <= |list| == |at| && e.useSgx && OnTop(e, list, at, k - 1)
    requires Accepts(e, Choose(e, list, k - 1), list[k - 1])
    ensures OnTop(e, list, at, k)
  {
    var p, l, s := Choose(e, list, k - 1), list[k - 1], at[k - 1];
    var low := PaintAcc(list, at, p.acc, 0, |p.acc|, CLEAR);
    assert Choose(e, list, k).acc == p.acc + [k - 1];
    PaintAccPrefix(list, at, p.acc, [k - 1], 0, |p.acc|, CLEAR);
    assert PaintAcc(list, at, p.acc + [k - 1], 0, |p.acc| + 1, CLEAR) == Put(l.blended, s, low);
    ChooseShape(e, list, k - 1);
    if l.blended { NoFbYet(e, list, at, k - 1); }
    BesideFb(l.blended, s, FbContent(e, list, at, k - 1), low);
  }

  lemma DrawnOnTop(e: Env, list: seq<Layer>, at: seq<Shown>, k: nat)
    requires 1 <= k <= |list| && Consistent(list, at) && e.useSgx && OnTop(e, list, at, k - 1)
    requires !Accepts(e, Choose(e, list, k - 1), list[k - 1])
    ensures OnTop(e, list, at, k)
  {
    var p := Choose(e, list, k - 1);
    assert Choose(e, list, k).acc == p.acc;
    DrawnIntoFb(list[k - 1].blended, at[k - 1], FbContent(e, list, at, k - 1),
                PaintAcc(list, at, p.acc, 0, |p.acc|, CLEAR));
  }

  lemma {:induction false} FbOnTop(e: Env, list: seq<Layer>, at: seq<Shown>, k: nat)
    requires k <= |list| && Consistent(list, at) && e.useSgx
    ensures OnTop(e, list, at, k)
  {
    if k == 0 {
      ClearShows(CLEAR);
    } else {
      FbOnTop(e, list, at, k - 1);
      if Accepts(e, Choose(e, list, k - 1), list[k - 1]) {
        AcceptedOnTop(e, list, at, k);
      } else {
        DrawnOnTop(e, list, at, k);
      }
    }
  }

  // ----- Overlays left above the framebuffer -----

  /** An overlay accepted after the framebuffer began is opaque and has a hole below it. */
  lemma {:induction false} AboveFb(e: Env, list: seq<Layer>, at: seq<Shown>, k: nat)
    requires k <= |list| && Consistent(list, at) && e.useSgx && Choose(e, list, k).fbZ >= 0
    requires forall j :: 0 <= j < |Choose(e, list, k).acc| ==> Choose(e, list, k).acc[j] < |list|
    ensures var p := Choose(e, list, k);
            var fb := FbContent(e, list, at, k);
            && 0 <= p.fbZ <= |p.acc|
            && PaintAcc(list, at, p.acc, p.fbZ, |p.acc|, Over(fb, PaintAcc(list, at, p.acc, 0, p.fbZ, CLEAR)))
               == Over(fb, PaintAcc(list, at, p.acc, 0, |p.acc|, CLEAR))
  {
    ChooseShape(e, list, k);
    ChooseShape(e, list, k - 1);
    var p, l, s := Choose(e, list, k - 1), list[k - 1], at[k - 1];
    if Accepts(e, p, l) {
      AboveFb(e, list, at, k - 1);
      var acc := p.acc + [k - 1];
      var fb, fb' := FbContent(e, list, at, k - 1), FbContent(e, list, at, k);
      var low := PaintAcc(list, at, p.acc, 0, p.fbZ, CLEAR);
      PaintAccPrefix(list, at, p.acc, [k - 1], 0, p.fbZ, CLEAR);
      PaintAccPrefix(list, at, p.acc, [k - 1], 0, |p.acc|, CLEAR);
      PaintAccPrefix(list, at, p.acc, [k - 1], p.fbZ, |p.acc|, Over(fb', low));
      ClearShows(Put(l.blended, s, PaintAcc(list, at, p.acc, 0, |p.acc|, CLEAR)));
    }
  }

  /**
    Main result: however the loop distributes the layers, the display shows the painter's
    composition of the list.
   */
  lemma SplitPreservesPicture(e: Env, list: seq<Layer>, at: seq<Shown>, p: Plan, planes: seq<Plane>)
    requires Consistent(list, at) && e.useSgx
    requires p == WithFramebuffer(Choose(e, list, |list|)) && PlanesOf(p, |list|, planes)
    ensures Stacked(planes)
    ensures Display(list, at, FbContent(e, list, at, |list|), planes, |planes|) == PaintList(list, at, |list|)
  {
    var n := |list|;
    var q := Choose(e, list, n);
    var fb := FbContent(e, list, at, n);
    ChooseShape(e, list, n);
    PlanesStacked(p, n, planes);
    DisplayIs(list, at, fb, p, planes, |planes|);
    FbOnTop(e, list, at, n);
    if q.fbZ >= 0 {
      AboveFb(e, list, at, n);
    }
  }

  /** Without any layer of its own the framebuffer goes on top. */
  function WithFramebuffer(p: Plan): Plan { if p.fbZ < 0 then p.(fbZ := |p.acc|) else p }

  /** Without a framebuffer the overlays alone are the picture, provided no layer is lost. */
  lemma {:induction false} AllOverlaysPicture(e: Env, list: seq<Layer>, at: seq<Shown>, k: nat)
    requires k <= |list| == |at|
    ensures PaintAcc(list, at, seq(k, i => i), 0, k, CLEAR) == PaintList(list, at, k)
  {
    if k > 0 {
      AllOverlaysPicture(e, list, at, k - 1);
      assert seq(k, i => i) == seq(k - 1, i => i) + [k - 1];
      PaintAccPrefix(list, at, seq(k - 1, i => i), [k - 1], 0, k - 1, CLEAR);
    }
  }
}
