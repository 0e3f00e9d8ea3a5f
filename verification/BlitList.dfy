/** The global blit buffer, and batches of commands that only declare what changed. */
module BlitList {
  import opened Geometry
  import opened Layers
  import opened Blits
  import Pixels

  /** RGZ_MAX_BLITS. */
  const MAX_BLITS := 625

  /** The fixed array `bvcmds` with its fill level `idx`, as the sequence of filled slots. */
  class BltList {
    var bvcmds: seq<Entry>
    /** Every command asked for, including those that found no free slot. */
    ghost var asked: seq<Entry>

    ghost predicate Valid()
      reads this
    {
      && |bvcmds| == Min(|asked|, MAX_BLITS)
      && (|asked| <= MAX_BLITS ==> bvcmds == asked)
    }

    constructor ()
      ensures Valid() && asked == []
    {
      bvcmds, asked := [], [];
    }

    /** `rgz_blts_init`. */
    method Init()
      modifies this
      ensures Valid() && asked == []
    {
      bvcmds, asked := [], [];
    }

    /** `rgz_blts_get`, with the fields filled in: when full, the last slot is used again. */
    method Get(e: Entry)
      requires Valid()
      modifies this
      ensures Valid() && asked == old(asked) + [e]
    {
      if |bvcmds| < MAX_BLITS {
        bvcmds := bvcmds + [e];
      } else {
        bvcmds := bvcmds[|bvcmds| - 1 := e];
      }
      asked := asked + [e];
    }

    /** A change to the command handed out last. */
    method Amend(e: Entry)
      requires Valid() && asked != []
      modifies this
      ensures Valid() && asked == old(asked)[..|old(asked)| - 1] + [e]
    {
      bvcmds := bvcmds[|bvcmds| - 1 := e];
      asked := asked[..|asked| - 1] + [e];
    }
  }

  /** Two commands with the same effect: only the flags of submission differ. */
  predicate SameBlit(a: Entry, b: Entry) {
    a == b.(async := a.async, batch := a.batch, changes := a.changes)
  }

  lemma SameBlitStep(tx: Textures, w: int, h: int, a: Entry, b: Entry, x: int, y: int, p: Pixels.Pixel)
    requires SameBlit(a, b)
    ensures Step(tx, w, h, a, x, y, p) == Step(tx, w, h, b, x, y, p)
  {
  }

  ghost predicate SameBlits(a: seq<Entry>, b: seq<Entry>) {
    |a| == |b| && forall i :: 0 <= i < |a| ==> SameBlit(a[i], b[i])
  }

  lemma {:induction false} SameBlitsExec(tx: Textures, w: int, h: int, a: seq<Entry>, b: seq<Entry>,
                                         x: int, y: int, p: Pixels.Pixel)
    requires SameBlits(a, b)
    ensures Exec(tx, w, h, a, x, y, p) == Exec(tx, w, h, b, x, y, p)
    decreases |a|
  {
    if a != [] {
      var n := |a| - 1;
      SameBlitsExec(tx, w, h, a[..n], b[..n], x, y, p);
      SameBlitStep(tx, w, h, a[n], b[n], x, y, Exec(tx, w, h, b[..n], x, y, p));
    }
  }

  // ----- Batches -----

  function RectOf(s: Source2): Rect {
    match s
    case Unused => ZERO_RECT
    case Target(r) => r
    case Image2(surface) => surface.rect
  }

  function WithRect(s: Source2, r: Rect): Source2 {
    match s
    case Unused => Unused
    case Target(_) => Target(r)
    case Image2(surface) => Image2(surface.(rect := r))
  }

  /**
    What the receiver makes of a batched command: declared fields come from the command itself,
    the others stay as they were. A second source that is the destination shares its orientation.
   */
  function ApplyChanges(prev: Entry, e: Entry): Entry {
    prev.(
      blend := if Op in e.changes then e.blend else prev.blend,
      src1 := if Src1 in e.changes && Src1Rect in e.changes then e.src1 else prev.src1,
      src2 := if Src2 in e.changes && Src2Rect in e.changes then e.src2
              else if Src2Rect in e.changes then WithRect(prev.src2, RectOf(e.src2)) else prev.src2,
      dstOrientation := if Dst in e.changes then e.dstOrientation else prev.dstOrientation,
      dstRect := if DstRect in e.changes then e.dstRect else prev.dstRect,
      clip := if ClipRect in e.changes then e.clip else prev.clip,
      scale := if Scale in e.changes then e.scale else prev.scale)
  }

  predicate Inside(b: Batch) { b == Continue || b == End }

  predicate Opens(b: Batch) { b == Begin || b == Continue }

  /** The command list as the receiver reads it. */
  function Replay(es: seq<Entry>): (r: seq<Entry>)
    ensures |r| == |es|
  {
    if es == [] then []
    else
      var n := |es| - 1;
      var front := Replay(es[..n]);
      front + [if Inside(es[n].batch) && n > 0 then ApplyChanges(front[n - 1], es[n]) else es[n]]
  }

  /** Neighbours agree on being in one batch, and inside it every change is declared. */
  predicate Linked(a: Entry, b: Entry) {
    && (Inside(b.batch) <==> Opens(a.batch))
    && (Inside(b.batch) ==> SameBlit(ApplyChanges(a, b), b))
    && (Inside(b.batch) && Src2 !in b.changes ==> a.dstOrientation == b.dstOrientation)
  }

  /** Batches are bracketed BEGIN, CONTINUE..., END; the last one may still be open. */
  ghost predicate Bracketed(es: seq<Entry>) {
    && (es != [] ==> !Inside(es[0].batch))
    && forall i :: 0 <= i < |es| - 1 ==> Linked(es[i], es[i + 1])
  }

  /** Commands as the region output queues them: batched, and all asynchronous. */
  ghost predicate Queued(es: seq<Entry>) {
    Bracketed(es) && forall i :: 0 <= i < |es| ==> es[i].async
  }

  predicate Closed(es: seq<Entry>) { es != [] ==> !Opens(es[|es| - 1].batch) }

  lemma QueuedConcat(a: seq<Entry>, b: seq<Entry>)
    requires Queued(a) && Closed(a) && Queued(b)
    ensures Queued(a + b)
    ensures Closed(b) ==> Closed(a + b)
  {
    var c := a + b;
    forall i | 0 <= i < |c| - 1 ensures Linked(c[i], c[i + 1]) {
      if i < |a| - 1 {
        assert Linked(a[i], a[i + 1]);
      } else if i >= |a| {
        assert Linked(b[i - |a|], b[i - |a| + 1]);
      }
    }
  }

  /** Everything but the last command is asynchronous: the last one is the fence. */
  ghost predicate Fenced(es: seq<Entry>) {
    forall i :: 0 <= i < |es| ==> es[i].async == (i < |es| - 1)
  }

  lemma FenceLast(es: seq<Entry>, e: Entry)
    requires Queued(es) && Closed(es) && es != [] && e == es[|es| - 1].(async := false)
    ensures var f := es[..|es| - 1] + [e];
            Bracketed(f) && Closed(f) && Fenced(f) && SameBlits(es, f)
  {
    var f := es[..|es| - 1] + [e];
    forall i | 0 <= i < |f| - 1 ensures Linked(f[i], f[i + 1]) {
      assert Linked(es[i], es[i + 1]);
    }
  }

  lemma ApplySame(a: Entry, a': Entry, b: Entry)
    requires SameBlit(a, a')
    ensures SameBlit(ApplyChanges(a, b), ApplyChanges(a', b))
  {
  }

  /** Sending only the declared fields loses nothing. */
  lemma {:induction false} ReplayFaithful(es: seq<Entry>)
    requires Bracketed(es)
    ensures SameBlits(Replay(es), es)
    decreases |es|
  {
    if es != [] {
      var n := |es| - 1;
      ReplayFaithful(es[..n]);
      if Inside(es[n].batch) && n > 0 {
        assert Linked(es[n - 1], es[n]);
        ApplySame(es[n - 1], Replay(es[..n])[n - 1], es[n]);
      }
    }
  }

  // ----- The changes declared for blending one more layer in the same cell -----

  /** The flags `rgz_hwc_subregion_blit` gathers for a later command of a batch. */
  function ChangesFor(first: set<Change>, scaled: bool, nv12: bool): set<Change> {
    first + {Src1, Src1Rect}
    + (if scaled then {DstRect, Src2Rect, Scale} else {})
    + (if nv12 then {Dst, DstRect, Src2, Src2Rect, ClipRect} else {})
  }

  /** A command of the batch of one cell, drawing layer `l` through its first source. */
  predicate CellCommand(w: int, h: int, cell: Rect, l: Layer, e: Entry) {
    l.handle.Native? &&
    var c := CopyEntry(w, h, cell, l);
    e.src1 == c.src1 && e.dstOrientation == c.dstOrientation && e.dstRect == c.dstRect
    && e.clip == c.clip && e.scale == c.scale
  }

  /** The declared changes suffice to go from one layer of the cell to the next. */
  lemma ChangesSuffice(w: int, h: int, cell: Rect, l: Layer, n: Layer, a: Entry, b: Entry,
                       first: set<Change>)
    requires CellCommand(w, h, cell, l, a) && n.handle.Native? && Opens(a.batch)
    requires b == BlendEntry(w, h, cell, n).(batch := Continue, changes := ChangesFor(first,
                    Scaled(l) || Scaled(n), IsNV12(l.handle.format) || IsNV12(n.handle.format)))
    requires (a.blend && a.src2 == Target(a.dstRect)) || ({Src2, Src2Rect} <= first && (a.blend || Op in first))
    ensures Linked(a, b)
  {
  }
}
