/**
  Concrete runs showing that the conditions of `Runs` cannot be dropped. In each of the first four,
  the third frame breaks one condition alone, and is shown wrong; in the last one a single frame is.
 */
module Witnesses {
  import opened Geometry
  import opened Pixels
  import opened Rotation
  import opened Layers
  import opened Blits
  import opened Painter
  import opened Stacks
  import opened BlitList
  import opened DirtyTracking
  import opened Regions
  import opened Progress
  import opened Regionizer
  import opened Runs

  const UPRIGHT := Transform(false, false, false)

  const LEFT := Rect(0, 0, 2, 2)
  const RIGHT := Rect(4, 4, 6, 6)
  const FARTHER := Rect(6, 6, 8, 8)

  /** A small unscaled layer with the buffer `id`. */
  function Patch(id: nat, frame: Rect, blending: Blending, identity: int): HwcLayer {
    HwcLayer(FrameBuffer, false, false,
             Layer(Native(id, 2, 2, BGRA8888), UPRIGHT, blending, Rect(0, 0, 2, 2), frame), identity)
  }

  const LOW := Patch(1, LEFT, NoBlend, 1)
  const MOVED := Patch(1, FARTHER, NoBlend, 1)
  const HIGH := Patch(2, LEFT, NoBlend, 2)
  const FADED := Patch(2, LEFT, Premult, 2)
  const FAR := Patch(3, RIGHT, NoBlend, 3)
  const TWIN := Patch(3, LEFT, NoBlend, 3)

  datatype Story = Returning | Fading | Reordering | Twins

  /** Three frames, each as its list of layers. */
  function Frames(s: Story): (seq<HwcLayer>, seq<HwcLayer>, seq<HwcLayer>) {
    match s
    // A layer is away for one frame and comes back elsewhere.
    case Returning => ([LOW, FAR], [FAR], [MOVED, FAR])
    // A layer becomes blended.
    case Fading => ([LOW, HIGH], [LOW, HIGH], [LOW, FADED])
    // Two overlapping layers trade places.
    case Reordering => ([LOW, HIGH], [LOW, HIGH], [HIGH, LOW])
    // Of two layers with one identity, the second one goes.
    case Twins => ([FAR, TWIN], [FAR, TWIN], [FAR])
  }

  /** The story told to the regionizer in region mode. */
  function Calls(s: Story): seq<Call> {
    var (a, b, c) := Frames(s);
    [Call(a, RegionMode, true), Call(b, RegionMode, true), Call(c, RegionMode, true)]
  }

  /** Which conditions hold of the third frame, and which one alone fails. */
  ghost predicate OnlyFails(s: Story, cur: seq<RgzLayer>, prev: seq<RgzLayer>, target: seq<RgzLayer>) {
    && UniqueIdentities(cur)
    && (UniqueIdentities(target) <==> !s.Twins?)
    && (KeepsBlending(cur, target) <==> !s.Fading?)
    && (KeepsOrder(cur, target) <==> !s.Reordering?)
    && (ReturnsInPlace(cur, prev, target) <==> !s.Returning?)
  }

  /** The run tells the story. */
  ghost predicate Tells(s: Story, states: seq<Machine>, events: seq<Event>) {
    && Run(8, 8, states, events) && |events| == 3
    && forall i :: 0 <= i < 3 ==> Performs(8, 8, Calls(s)[i], true, events[i])
  }

  // ----- The frames -----

  /** A patch as it is stored. */
  predicate Is(l: RgzLayer, p: HwcLayer) { IsImage(l) && l.hwc == p.layer && l.identity == p.identity }

  /** The background, then the patches. */
  ghost predicate Holds(s: seq<RgzLayer>, list: seq<HwcLayer>) {
    && |s| == |list| + 1 && IsBackground(s[0]) && s[0].hwc == Background(8, 8).hwc
    && forall i :: 0 <= i < |list| ==> Is(s[i + 1], list[i])
  }

  predicate IsPatch(p: HwcLayer) {
    p.layer.handle.Native? && p == Patch(p.layer.handle.id, p.layer.frame, p.layer.blending, p.identity)
    && p.layer.frame in {LEFT, RIGHT, FARTHER}
  }

  lemma {:induction false} PatchesStored(list: seq<HwcLayer>, k: nat)
    requires k <= |list| && forall i :: 0 <= i < |list| ==> IsPatch(list[i])
    ensures Holds(FrameOf(8, 8, list, k), list[..k])
  {
    if k > 0 {
      PatchesStored(list, k - 1);
    }
  }

  lemma PatchesAccepted(list: seq<HwcLayer>)
    requires 1 <= |list| <= 2 && forall i :: 0 <= i < |list| ==> IsPatch(list[i])
    ensures HintsUnblended(list) && Sure(8, 8, Call(list, RegionMode, true))
    ensures Holds(RawFrame(8, 8, list), list)
  {
    PatchesStored(list, |list|);
    assert list[..|list|] == list;
  }

  // ----- Tracking over three frames -----

  /** The stored frames after each of the three calls, and the raw frame of the third. */
  ghost predicate Track(s: Story, a: seq<RgzLayer>, b: seq<RgzLayer>, c: seq<RgzLayer>, third: seq<RgzLayer>) {
    var (la, lb, lc) := Frames(s);
    && Holds(a, la) && Holds(b, lb) && Holds(c, lc) && Holds(third, lc)
    && (forall i :: 0 <= i < |a| ==> a[i].dirty == 2)
    && (forall i :: 0 <= i < |b| ==> b[i].dirty == DirtyCount(a, [], b[i], i))
    && Tracked(b, a, third, c)
  }

  lemma FirstTracked(raw: seq<RgzLayer>, a: seq<RgzLayer>, list: seq<HwcLayer>)
    requires Tracked([], [], raw, a) && Holds(raw, list)
    ensures Holds(a, list) && forall i :: 0 <= i < |a| ==> a[i].dirty == 2
  {
  }

  lemma LaterTracked(prev: seq<RgzLayer>, target: seq<RgzLayer>, raw: seq<RgzLayer>, out: seq<RgzLayer>,
                     list: seq<HwcLayer>)
    requires Tracked(prev, target, raw, out) && Holds(raw, list)
    ensures Holds(out, list) && forall i :: 0 <= i < |out| ==> out[i].dirty == DirtyCount(prev, target, out[i], i)
  {
    forall i | 0 <= i < |out| ensures out[i].dirty == DirtyCount(prev, target, out[i], i) {
      CountAside(prev, target, raw[i], out[i].dirty, i);
    }
  }

  /** The count itself plays no part in counting. */
  lemma CountAside(prev: seq<RgzLayer>, target: seq<RgzLayer>, l: RgzLayer, d: nat, i: nat)
    ensures DirtyCount(prev, target, l.(dirty := d), i) == DirtyCount(prev, target, l, i)
  {
  }

  lemma Told(m: Machine, e: Event, m': Machine, list: seq<HwcLayer>)
    requires Next(8, 8, m, e, m') && Performs(8, 8, Call(list, RegionMode, true), true, e)
    ensures e.Region? && e.raw == RawFrame(8, 8, list) && m'.older == m.last
    ensures Tracked(m.last, m.older, e.raw, m'.last)
  {
  }

  lemma StoryPatches(s: Story)
    ensures var (la, lb, lc) := Frames(s);
            forall l :: l in [la, lb, lc] ==> 1 <= |l| <= 2 && forall i :: 0 <= i < |l| ==> IsPatch(l[i])
  {
  }

  lemma PatchesUnmirrored(s: seq<RgzLayer>, list: seq<HwcLayer>)
    requires Holds(s, list) && forall i :: 0 <= i < |list| ==> IsPatch(list[i])
    ensures Unmirrored(s)
  {
    forall i | 1 <= i < |s| ensures !Mirrored(s[i].hwc.transform) {
      assert Is(s[i], list[i - 1]) && IsPatch(list[i - 1]);
    }
  }

  lemma TellsEach(s: Story, states: seq<Machine>, events: seq<Event>, i: nat, list: seq<HwcLayer>)
    requires Tells(s, states, events) && i < 3 && list == Calls(s)[i].list
    ensures events[i].Region? && Holds(events[i].raw, list) && Unmirrored(events[i].raw)
    ensures Next(8, 8, states[i], events[i], states[i + 1]) && states[i + 1].older == states[i].last
    ensures Tracked(states[i].last, states[i].older, events[i].raw, states[i + 1].last)
  {
    var (m, e, m') := (states[i], events[i], states[i + 1]);
    assert Next(8, 8, m, e, m');
    assert Calls(s)[i] == Call(list, RegionMode, true) && Performs(8, 8, Calls(s)[i], true, e);
    ToldPatches(s, m, e, m', list);
  }

  lemma ToldPatches(s: Story, m: Machine, e: Event, m': Machine, list: seq<HwcLayer>)
    requires Next(8, 8, m, e, m') && Performs(8, 8, Call(list, RegionMode, true), true, e)
    requires var (la, lb, lc) := Frames(s); list in [la, lb, lc]
    ensures e.Region? && Holds(e.raw, list) && Unmirrored(e.raw) && m'.older == m.last
    ensures Tracked(m.last, m.older, e.raw, m'.last)
  {
    Told(m, e, m', list);
    StoryPatches(s);
    PatchesAccepted(list);
    PatchesUnmirrored(e.raw, list);
  }

  lemma TrackRun(s: Story, states: seq<Machine>, events: seq<Event>)
    requires Tells(s, states, events)
    ensures Track(s, states[1].last, states[2].last, states[3].last, events[2].raw)
    ensures states[2].older == states[1].last && states[1].older == []
  {
    var (la, lb, lc) := Frames(s);
    TellsEach(s, states, events, 0, la);
    TellsEach(s, states, events, 1, lb);
    TellsEach(s, states, events, 2, lc);
    FirstTracked(events[0].raw, states[1].last, la);
    LaterTracked(states[1].last, [], events[1].raw, states[2].last, lb);
    LaterTracked(states[2].last, states[1].last, events[2].raw, states[3].last, lc);
  }

  /** A patch that is in all three frames, in place and with the same buffer, is clean in the third. */
  lemma StillClean(s: Story, a: seq<RgzLayer>, b: seq<RgzLayer>, c: seq<RgzLayer>, third: seq<RgzLayer>,
                   i: nat, j: nat, k: nat)
    requires Track(s, a, b, c, third) && 1 <= i < |a| && 1 <= j < |b| && 1 <= k < |c|
    requires SameContent(third[k], b[j]) && SameContent(b[j], a[i]) && third[k].hwc.frame == a[i].hwc.frame
    requires IndexOf(a, a[i].identity) == i && IndexOf(b, a[i].identity) == j
    ensures c[k].dirty == 0 && DamagedBy(b, a, third[k], k) == []
  {
  }

  lemma BackgroundClean(s: Story, a: seq<RgzLayer>, b: seq<RgzLayer>, c: seq<RgzLayer>, third: seq<RgzLayer>)
    requires Track(s, a, b, c, third)
    ensures c[0].dirty == 0 && DamagedBy(b, a, third[0], 0) == []
  {
  }

  lemma {:induction false} CleanThere(s: seq<RgzLayer>, k: nat)
    requires k <= |s| && SafeHandles(s)
    requires forall i :: 0 <= i < k && Contains(s[i].hwc.frame, 0, 0) ==> s[i].dirty == 0
    ensures !VisibleDirty(s, k, 0, 0)
  {
    if k > 0 {
      CleanThere(s, k - 1);
    }
  }

  lemma FarClips(frames: seq<Rect>)
    requires forall f :: f in frames ==> f.left >= 4
    ensures forall f :: f in frames && Intersects(Screen(8, 8), f) ==> Within(ClipTo(8, 8, f), Rect(4, 0, 8, 8))
  {
  }

  /** Damage that keeps to the right leaves the origin alone. */
  lemma FarDamage(prev: seq<RgzLayer>, target: seq<RgzLayer>, cur: seq<RgzLayer>)
    requires forall i, f :: 0 <= i < |cur| && f in DamagedBy(prev, target, cur[i], i) ==> f.left >= 4
    requires forall j :: 1 <= j < |target| ==> IndexOf(cur, target[j].identity) >= 0
    ensures !Contains(Damage(8, 8, prev, target, cur), 0, 0)
  {
    var frames := DamagedFrames(prev, target, cur, |cur|) + LostFrames(target, cur, |target|);
    forall f | f in frames ensures f.left >= 4 {
      if f in LostFrames(target, cur, |target|) {
        var j := LostFrameFrom(target, cur, |target|, f);
      } else {
        var i := DamagedFrameFrom(prev, target, cur, |cur|, f);
      }
    }
    FarClips(frames);
    DamageWithin(8, 8, frames, Rect(4, 0, 8, 8));
  }

  lemma Safe(s: seq<RgzLayer>, list: seq<HwcLayer>)
    requires Holds(s, list) && forall i :: 0 <= i < |list| ==> IsPatch(list[i])
    ensures SafeHandles(s)
  {
    forall i | 1 <= i < |s| ensures SafeHandle(s[i]) {
      assert Is(s[i], list[i - 1]) && IsPatch(list[i - 1]);
    }
  }

  // ----- The third frame goes wrong -----

  /** At the origin nothing is drawn, although other pixels should be seen there. */
  ghost predicate StaleAt(a: seq<RgzLayer>, b: seq<RgzLayer>, c: seq<RgzLayer>, third: seq<RgzLayer>) {
    && SafeHandles(a) && SafeHandles(c) && !Redrawn(c, Damage(8, 8, b, a, third), 0, 0)
    && VisibleStack(8, 8, c, 0, 0) != VisibleStack(8, 8, a, 0, 0)
  }

  lemma StoryFrames(s: Story, a: seq<RgzLayer>, b: seq<RgzLayer>, c: seq<RgzLayer>, third: seq<RgzLayer>)
    requires Track(s, a, b, c, third)
    ensures SafeHandles(a) && SafeHandles(b) && SafeHandles(c)
  {
    var (la, lb, lc) := Frames(s);
    StoryPatches(s);
    Safe(a, la);
    Safe(b, lb);
    Safe(c, lc);
  }

  lemma One(s: seq<RgzLayer>, p: HwcLayer)
    requires Holds(s, [p])
    ensures |s| == 2 && Is(s[1], p)
  {
    assert [p][0] == p;
  }

  lemma Two(s: seq<RgzLayer>, p: HwcLayer, q: HwcLayer)
    requires Holds(s, [p, q])
    ensures |s| == 3 && Is(s[1], p) && Is(s[2], q)
  {
    assert [p, q][0] == p && [p, q][1] == q;
  }

  /** An unscaled upright layer shows its pixels in place. */
  lemma UprightReads(w: int, h: int, l: Layer, x: int, y: int)
    requires l.handle.Native? && l.transform == UPRIGHT && !Scaled(l)
    ensures LayerRead(w, h, l, x, y)
            == Exact(l.handle, l.crop.left + x - l.frame.left, l.crop.top + y - l.frame.top)
  {
    NormalIsRemainder(0);
    var (sx, sy) := SourcePoint(l, x, y);
    assert LayerRead(w, h, l, x, y) == Exact(l.handle, sx, sy);
  }

  /** What can be seen at the origin of the lowest `k` layers, when the top one is `p`. */
  lemma TopSeen(w: int, h: int, s: seq<RgzLayer>, k: nat, p: HwcLayer, x: int, y: int)
    requires SafeHandles(s) && 1 <= k <= |s| && Is(s[k - 1], p) && IsPatch(p) && x == y == 0
    ensures var below := Stack(w, h, Whole, s, k - 1, x, y);
            Stack(w, h, Whole, s, k, x, y)
            == if p.layer.frame != LEFT then below
               else [Exact(p.layer.handle, 0, 0)] + if p.layer.blending == Premult then below else []
  {
    if p.layer.frame == LEFT { UprightReads(w, h, s[k - 1].hwc, x, y); }
  }

  lemma BottomSeen(w: int, h: int, s: seq<RgzLayer>, list: seq<HwcLayer>, x: int, y: int)
    requires SafeHandles(s) && Holds(s, list)
    ensures Stack(w, h, Whole, s, 1, x, y) == []
  {
  }

  // A layer that is away for one frame and comes back elsewhere leaves its old image behind.

  lemma ReturningSeen(w: int, h: int, a: seq<RgzLayer>, c: seq<RgzLayer>, x: int, y: int)
    requires Holds(a, [LOW, FAR]) && Holds(c, [MOVED, FAR]) && SafeHandles(a) && SafeHandles(c)
    requires x == y == 0
    ensures VisibleStack(w, h, c, x, y) != VisibleStack(w, h, a, x, y)
  {
    Two(a, LOW, FAR);
    Two(c, MOVED, FAR);
    TopSeen(w, h, a, 3, FAR, x, y);
    TopSeen(w, h, a, 2, LOW, x, y);
    TopSeen(w, h, c, 3, FAR, x, y);
    TopSeen(w, h, c, 2, MOVED, x, y);
    BottomSeen(w, h, c, [MOVED, FAR], x, y);
  }

  lemma ReturningConditions(a: seq<RgzLayer>, b: seq<RgzLayer>, third: seq<RgzLayer>)
    requires Holds(a, [LOW, FAR]) && Holds(b, [FAR]) && Holds(third, [MOVED, FAR])
    ensures OnlyFails(Returning, third, b, a)
  {
    Two(a, LOW, FAR);
    One(b, FAR);
    Two(third, MOVED, FAR);
    assert third[1].identity == a[1].identity && IndexOf(b, third[1].identity) < 0;
  }

  lemma ReturningClean(a: seq<RgzLayer>, b: seq<RgzLayer>, c: seq<RgzLayer>, third: seq<RgzLayer>)
    requires Track(Returning, a, b, c, third) && SafeHandles(c)
    ensures !Redrawn(c, Damage(8, 8, b, a, third), 0, 0)
  {
    Two(a, LOW, FAR);
    One(b, FAR);
    Two(c, MOVED, FAR);
    Two(third, MOVED, FAR);
    BackgroundClean(Returning, a, b, c, third);
    StillClean(Returning, a, b, c, third, 2, 1, 2);
    FarDamage(b, a, third);
    CleanThere(c, |c|);
  }

  // A layer that becomes blended, with nothing else new, is not noticed.

  lemma FadingSeen(w: int, h: int, a: seq<RgzLayer>, c: seq<RgzLayer>, x: int, y: int)
    requires Holds(a, [LOW, HIGH]) && Holds(c, [LOW, FADED]) && SafeHandles(a) && SafeHandles(c)
    requires x == y == 0
    ensures VisibleStack(w, h, c, x, y) != VisibleStack(w, h, a, x, y)
  {
    Two(a, LOW, HIGH);
    Two(c, LOW, FADED);
    TopSeen(w, h, a, 3, HIGH, x, y);
    TopSeen(w, h, c, 3, FADED, x, y);
    TopSeen(w, h, c, 2, LOW, x, y);
  }

  lemma FadingConditions(a: seq<RgzLayer>, b: seq<RgzLayer>, third: seq<RgzLayer>)
    requires Holds(a, [LOW, HIGH]) && Holds(b, [LOW, HIGH]) && Holds(third, [LOW, FADED])
    ensures OnlyFails(Fading, third, b, a)
  {
    Two(a, LOW, HIGH);
    Two(b, LOW, HIGH);
    Two(third, LOW, FADED);
    assert third[2].identity == a[2].identity;
    assert IndexOf(b, 1) == 1 && IndexOf(b, 2) == 2;
  }

  lemma FadingClean(a: seq<RgzLayer>, b: seq<RgzLayer>, c: seq<RgzLayer>, third: seq<RgzLayer>)
    requires Track(Fading, a, b, c, third) && SafeHandles(c)
    ensures !Redrawn(c, Damage(8, 8, b, a, third), 0, 0)
  {
    Two(a, LOW, HIGH);
    Two(b, LOW, HIGH);
    Two(c, LOW, FADED);
    Two(third, LOW, FADED);
    BackgroundClean(Fading, a, b, c, third);
    StillClean(Fading, a, b, c, third, 1, 1, 1);
    StillClean(Fading, a, b, c, third, 2, 2, 2);
    FarDamage(b, a, third);
    CleanThere(c, |c|);
  }

  // Two overlapping layers that trade places, with nothing else new, are not noticed.

  lemma ReorderingSeen(w: int, h: int, a: seq<RgzLayer>, c: seq<RgzLayer>, x: int, y: int)
    requires Holds(a, [LOW, HIGH]) && Holds(c, [HIGH, LOW]) && SafeHandles(a) && SafeHandles(c)
    requires x == y == 0
    ensures VisibleStack(w, h, c, x, y) != VisibleStack(w, h, a, x, y)
  {
    Two(a, LOW, HIGH);
    Two(c, HIGH, LOW);
    TopSeen(w, h, a, 3, HIGH, x, y);
    TopSeen(w, h, c, 3, LOW, x, y);
  }

  lemma ReorderingConditions(a: seq<RgzLayer>, b: seq<RgzLayer>, third: seq<RgzLayer>)
    requires Holds(a, [LOW, HIGH]) && Holds(b, [LOW, HIGH]) && Holds(third, [HIGH, LOW])
    ensures OnlyFails(Reordering, third, b, a)
  {
    Two(a, LOW, HIGH);
    Two(b, LOW, HIGH);
    Two(third, HIGH, LOW);
    assert !InOrder(third, 1, 2, a, 2, 1);
    assert IndexOf(b, 1) == 1 && IndexOf(b, 2) == 2;
  }

  lemma ReorderingClean(a: seq<RgzLayer>, b: seq<RgzLayer>, c: seq<RgzLayer>, third: seq<RgzLayer>)
    requires Track(Reordering, a, b, c, third) && SafeHandles(c)
    ensures !Redrawn(c, Damage(8, 8, b, a, third), 0, 0)
  {
    Two(a, LOW, HIGH);
    Two(b, LOW, HIGH);
    Two(c, HIGH, LOW);
    Two(third, HIGH, LOW);
    BackgroundClean(Reordering, a, b, c, third);
    StillClean(Reordering, a, b, c, third, 1, 1, 2);
    StillClean(Reordering, a, b, c, third, 2, 2, 1);
    FarDamage(b, a, third);
    CleanThere(c, |c|);
  }

  // Of two layers with one identity only the first is looked for, so the second can go unnoticed.

  lemma TwinsSeen(w: int, h: int, a: seq<RgzLayer>, c: seq<RgzLayer>, x: int, y: int)
    requires Holds(a, [FAR, TWIN]) && Holds(c, [FAR]) && SafeHandles(a) && SafeHandles(c)
    requires x == y == 0
    ensures VisibleStack(w, h, c, x, y) != VisibleStack(w, h, a, x, y)
  {
    Two(a, FAR, TWIN);
    One(c, FAR);
    TopSeen(w, h, a, 3, TWIN, x, y);
    TopSeen(w, h, c, 2, FAR, x, y);
    BottomSeen(w, h, c, [FAR], x, y);
  }

  lemma TwinsConditions(a: seq<RgzLayer>, b: seq<RgzLayer>, third: seq<RgzLayer>)
    requires Holds(a, [FAR, TWIN]) && Holds(b, [FAR, TWIN]) && Holds(third, [FAR])
    ensures OnlyFails(Twins, third, b, a)
  {
    Two(a, FAR, TWIN);
    Two(b, FAR, TWIN);
    One(third, FAR);
    assert a[1].identity == a[2].identity;
    assert IndexOf(b, 3) == 1;
  }

  lemma TwinsClean(a: seq<RgzLayer>, b: seq<RgzLayer>, c: seq<RgzLayer>, third: seq<RgzLayer>)
    requires Track(Twins, a, b, c, third) && SafeHandles(c)
    ensures !Redrawn(c, Damage(8, 8, b, a, third), 0, 0)
  {
    Two(a, FAR, TWIN);
    Two(b, FAR, TWIN);
    One(c, FAR);
    One(third, FAR);
    BackgroundClean(Twins, a, b, c, third);
    StillClean(Twins, a, b, c, third, 1, 1, 1);
    FarDamage(b, a, third);
    CleanThere(c, |c|);
  }

  /** In each story the third frame skips the origin, although other pixels should be seen there. */
  lemma StoryFails(s: Story, a: seq<RgzLayer>, b: seq<RgzLayer>, c: seq<RgzLayer>, third: seq<RgzLayer>)
    requires Track(s, a, b, c, third)
    ensures StaleAt(a, b, c, third) && OnlyFails(s, third, b, a)
  {
    StoryFrames(s, a, b, c, third);
    match s
    case Returning =>
      ReturningSeen(8, 8, a, c, 0, 0);
      ReturningConditions(a, b, third);
      ReturningClean(a, b, c, third);
    case Fading =>
      FadingSeen(8, 8, a, c, 0, 0);
      FadingConditions(a, b, third);
      FadingClean(a, b, c, third);
    case Reordering =>
      ReorderingSeen(8, 8, a, c, 0, 0);
      ReorderingConditions(a, b, third);
      ReorderingClean(a, b, c, third);
    case Twins =>
      TwinsSeen(8, 8, a, c, 0, 0);
      TwinsConditions(a, b, third);
      TwinsClean(a, b, c, third);
  }

  /**
    Main result: each story ends with a wrong picture. The first two frames are right, the third
    one breaks a single condition, and it leaves its framebuffer showing something else.
   */
  lemma StaleRun(s: Story, states: seq<Machine>, events: seq<Event>)
    requires Tells(s, states, events)
    ensures ShownRight(8, 8, states, events, 2) && !Shows(8, 8, states[3].shown, states[3].last)
    ensures OnlyFails(s, events[2].raw, states[2].last, states[1].last) && Unmirrored(events[2].raw)
  {
    var (la, lb, lc) := Frames(s);
    TrackRun(s, states, events);
    StoryFails(s, states[1].last, states[2].last, states[3].last, events[2].raw);
    TellsEach(s, states, events, 0, la);
    TellsEach(s, states, events, 1, lb);
    TellsEach(s, states, events, 2, lc);
    EndsStale(states, events);
  }

  /** A run whose first two frames are disciplined, while the third one goes stale. */
  lemma EndsStale(states: seq<Machine>, events: seq<Event>)
    requires Run(8, 8, states, events) && |events| == 3
    requires Disciplined(states[0], events[0]) && Disciplined(states[1], events[1]) && events[2].Region?
    requires states[2].older == states[1].last
    requires StaleAt(states[1].last, states[2].last, states[3].last, events[2].raw)
    ensures ShownRight(8, 8, states, events, 2) && !Shows(8, 8, states[3].shown, states[3].last)
  {
    DisciplinedRun(8, 8, states, events, 2);
    RightAt(8, 8, states, events, 2);
    assert Next(8, 8, states[2], events[2], states[3]);
    StaleFrame(states[2], events[2], states[3], states[1].last);
  }

  lemma StaleFrame(m: Machine, e: Event, m': Machine, target: seq<RgzLayer>)
    requires Right(8, 8, m) && Next(8, 8, m, e, m') && e.Region? && m.older == target
    requires StaleAt(target, m.last, m'.last, e.raw)
    ensures !Shows(8, 8, m'.shown, m'.last)
  {
    RegionFrameRight(8, 8, m, e.raw, e.cmds, m');
    assert OnScreen(8, 8, 0, 0) && !PixelFaultless(8, 8, m, e.raw, m'.last, 0, 0);
  }

  /** And each of them can be told: the regionizer accepts all its frames. */
  method Tell(s: Story) returns (accepted: seq<bool>, ghost states: seq<Machine>, ghost events: seq<Event>)
    ensures accepted == [true, true, true] && Tells(s, states, events)
  {
    var rgz := new Rgz(8, 8);
    var blts := new BltList();
    StoryPatches(s);
    forall i | 0 <= i < 3
      ensures HintsUnblended(Calls(s)[i].list) && Sure(8, 8, Calls(s)[i])
    {
      PatchesAccepted(Calls(s)[i].list);
    }
    accepted, states, events := Play(rgz, blts, Calls(s));
    assert forall i :: 0 <= i < 3 ==> Performs(8, 8, Calls(s)[i], accepted[i], events[i]);
  }

  // ----- A mirror image cut off its centre -----

  /** An upright mirror image is cut wrongly as soon as the piece is nearer to one side. */
  lemma UprightOffCentre(l: Layer, region: Rect)
    requires !Scaled(l) && l.transform == Transform(true, false, false)
    ensures Centred(l, region) <==> region.left - l.frame.left == l.frame.right - region.right
  {
    OrientationAngles(l);
  }

  const VIDEO := Native(1, 4, 4, NV12)

  /** A mirrored NV12 layer, and a strip over it whose side cuts it. */
  const MIRROR := HwcLayer(FrameBuffer, false, false,
    Layer(VIDEO, Transform(true, false, false), NoBlend, Rect(0, 0, 4, 4), Rect(0, 0, 4, 4)), 1)
  const STRIP := HwcLayer(FrameBuffer, false, false,
    Layer(Native(2, 2, 1, BGRA8888), UPRIGHT, NoBlend, Rect(0, 0, 2, 1), Rect(1, 0, 3, 1)), 2)
  const CUT := Call([MIRROR, STRIP], RegionMode, true)

  lemma CutAccepted()
    ensures HintsUnblended(CUT.list) && Sure(8, 8, CUT) && Holds(RawFrame(8, 8, CUT.list), CUT.list)
  {
    var list := CUT.list;
    assert FrameOf(8, 8, list, 0) == [Background(8, 8)];
    assert FrameOf(8, 8, list, 1) == [Background(8, 8), StoredLayer(list, 0)];
    assert FrameOf(8, 8, list, 2) == [Background(8, 8), StoredLayer(list, 0), StoredLayer(list, 1)];
  }

  /** The pixel at the origin gets a cell of its own. */
  lemma CutCell(out: seq<RgzLayer>, damage: Rect)
    requires Holds(out, CUT.list)
    ensures PixelCell(8, 8, out, damage, 0, 0) == Rect(0, 0, 1, 1)
  {
    var cell := Rect(0, 0, 1, 1);
    Two(out, MIRROR, STRIP);
    YEdgesHold(damage, out, 8, |out|);
    var row := RowLayers(8, out, 0, 1);
    assert out[0] in row && out[2] in row;
    XEdgesHold(damage, row, 8, |row|);
    PixelCellIs(8, 8, out, damage, cell, 0, 0);
  }

  /** What an upright mirror image shows. */
  lemma MirrorReads(w: int, h: int, l: Layer, x: int, y: int)
    requires l.handle.Native? && !Scaled(l) && l.transform == Transform(true, false, false)
    ensures LayerRead(w, h, l, x, y)
            == Exact(l.handle, l.crop.right - 1 - (x - l.frame.left), l.crop.top + (y - l.frame.top))
  {
    NormalIsRemainder(0);
    var (sx, sy) := SourcePoint(l, x, y);
    assert LayerRead(w, h, l, x, y) == Exact(l.handle, sx, sy);
  }

  /** What a piece of it shows: the piece is mirrored in itself. */
  lemma MirrorPieceReads(w: int, h: int, l: Layer, region: Rect, x: int, y: int)
    requires l.handle.Native? && !Scaled(l) && l.transform == Transform(true, false, false)
    requires IsNV12(l.handle.format)
    ensures PieceRead(w, h, l, region, x, y)
            == Exact(l.handle, l.crop.left + (region.right - l.frame.left) - 1 - (x - region.left),
                     l.crop.top + (y - l.frame.top))
  {
    OrientationAngles(l);
    NormalIsRemainder(0);
    var e := CopyEntry(w, h, region, l);
    PieceFetches(w, h, l, region, e, x, y);
    var (px, py) := PiecePoint(w, h, l, region, x, y);
    assert PieceRead(w, h, l, region, x, y) == Exact(l.handle, px, py);
  }

  lemma CutComposes(tx: Textures, w: int, h: int, v: View, out: seq<RgzLayer>, x: int, y: int)
    requires Holds(out, CUT.list) && SafeHandles(out) && x == y == 0
    ensures out[1].hwc.handle == VIDEO
            && ComposeAll(tx, w, h, v, out, x, y) == Fetch(tx, ReadVia(v, w, h, out[1].hwc, x, y))
  {
    Two(out, MIRROR, STRIP);
    assert Compose(tx, w, h, v, out, 3, x, y) == Compose(tx, w, h, v, out, 2, x, y);
  }

  /** Main result: the accepted frame shows one column of the video where another belongs. */
  lemma MirroredCut(states: seq<Machine>, events: seq<Event>)
    requires Run(8, 8, states, events) && |events| == 1 && Performs(8, 8, CUT, true, events[0])
    ensures forall tx :: OpaqueFormats(tx) ==>
      && states[1].shown(tx, 0, 0) == tx.fetch(VIDEO, 0, 0)
      && ComposeAll(tx, 8, 8, Whole, states[1].last, 0, 0) == tx.fetch(VIDEO, 3, 0)
    ensures !Shows(8, 8, states[1].shown, states[1].last)
  {
    var m, e, m' := states[0], events[0], states[1];
    assert Next(8, 8, m, e, m');
    CutAccepted();
    Told(m, e, m', CUT.list);
    FirstTracked(e.raw, m'.last, CUT.list);
    forall tx | OpaqueFormats(tx)
      ensures m'.shown(tx, 0, 0) == tx.fetch(VIDEO, 0, 0)
      ensures ComposeAll(tx, 8, 8, Whole, m'.last, 0, 0) == tx.fetch(VIDEO, 3, 0)
    {
      FirstFramePixel(8, 8, m, e, m', tx, 0, 0);
      CutCell(m'.last, Damage(8, 8, [], [], e.raw));
      CutPixels(tx, 8, 8, m'.last, Rect(0, 0, 1, 1), 0, 0);
    }
    LitFetch(Exact(VIDEO, 3, 0), Exact(VIDEO, 3, 0));
    LitFetch(Exact(VIDEO, 3, 0), Exact(VIDEO, 0, 0));
    assert m'.shown(LitOnly(Exact(VIDEO, 3, 0)), 0, 0).r == 0.0;
  }

  lemma CutReads(w: int, h: int, l: Layer, cell: Rect, x: int, y: int)
    requires l.handle.Native? && IsNV12(l.handle.format) && !Scaled(l) && l.transform == Transform(true, false, false)
    requires l.frame.left == cell.left == x && l.frame.top == y && cell.right == x + 1
    ensures ReadVia(Whole, w, h, l, x, y) == Exact(l.handle, l.crop.right - 1, l.crop.top)
    ensures ReadVia(CutTo(cell), w, h, l, x, y) == Exact(l.handle, l.crop.left, l.crop.top)
  {
    MirrorReads(w, h, l, x, y);
    MirrorPieceReads(w, h, l, cell, x, y);
  }

  /** What is drawn at the origin, and what belongs there. */
  lemma CutPixels(tx: Textures, w: int, h: int, out: seq<RgzLayer>, cell: Rect, x: int, y: int)
    requires Holds(out, CUT.list) && SafeHandles(out) && x == y == 0
    requires cell.left == 0 && cell.right == 1
    ensures ComposeAll(tx, w, h, CutTo(cell), out, x, y) == tx.fetch(VIDEO, 0, 0)
    ensures ComposeAll(tx, w, h, Whole, out, x, y) == tx.fetch(VIDEO, 3, 0)
  {
    Two(out, MIRROR, STRIP);
    CutReads(w, h, out[1].hwc, cell, x, y);
    CutComposes(tx, w, h, CutTo(cell), out, x, y);
    CutComposes(tx, w, h, Whole, out, x, y);
  }

  lemma FirstFramePixel(w: int, h: int, m: Machine, e: Event, m': Machine, tx: Textures, x: int, y: int)
    requires Next(w, h, m, e, m') && e.Region? && m.last == [] && m.older == []
    requires OpaqueFormats(tx) && OnScreen(w, h, x, y)
    ensures m'.shown(tx, x, y) == CutPixel(tx, w, h, m'.last, Damage(w, h, [], [], e.raw), x, y)
  {
    TrackedState(w, h, [], [], e.raw, m'.last);
    NoTargetRedrawsAll(w, h, [], e.raw, m'.last, x, y);
  }

  /** The regionizer does accept it. */
  method ShowCut() returns (accepted: seq<bool>, ghost states: seq<Machine>, ghost events: seq<Event>)
    ensures accepted == [true] && Run(8, 8, states, events) && |events| == 1
    ensures Performs(8, 8, CUT, true, events[0])
  {
    var rgz := new Rgz(8, 8);
    var blts := new BltList();
    CutAccepted();
    accepted, states, events := Play(rgz, blts, [CUT]);
    assert Performs(8, 8, [CUT][0], accepted[0], events[0]);
  }
}
