/**
  The reads that make up a pixel, and why they decide it: two layer lists show the same pixel
  whatever the buffers hold exactly if they read the same, from the top down.
 */
module Stacks {
  import opened Geometry
  import opened Pixels
  import opened Layers
  import opened Blits
  import opened Painter

  /**
    What is read for a pixel of the lowest `k` layers, from the top down to the first layer that
    hides the rest. The background and clear hints hide the rest without reading anything.
   */
  function Stack(w: int, h: int, v: View, layers: seq<RgzLayer>, k: nat, x: int, y: int): seq<Read>
    requires k <= |layers| && SafeHandles(layers)
  {
    if k == 0 then []
    else
      var l := layers[k - 1];
      if !Contains(l.hwc.frame, x, y) then Stack(w, h, v, layers, k - 1, x, y)
      else if !IsImage(l) then []
      else [ReadVia(v, w, h, l.hwc, x, y)] + if Replaces(l) then [] else Stack(w, h, v, layers, k - 1, x, y)
  }

  /** What can be seen of whole layers. */
  function VisibleStack(w: int, h: int, layers: seq<RgzLayer>, x: int, y: int): seq<Read>
    requires SafeHandles(layers)
  {
    Stack(w, h, Whole, layers, |layers|, x, y)
  }

  /** The reads over each other, the first on top. */
  function Blend(tx: Textures, rs: seq<Read>): Pixel {
    if rs == [] then CLEAR else Over(Fetch(tx, rs[0]), Blend(tx, rs[1..]))
  }

  /** A composition is the blend of its stack. */
  lemma {:induction false} ComposeIsBlend(tx: Textures, w: int, h: int, v: View, layers: seq<RgzLayer>, k: nat,
                                          x: int, y: int)
    requires OpaqueFormats(tx) && k <= |layers| && SafeHandles(layers)
    ensures Compose(tx, w, h, v, layers, k, x, y) == Blend(tx, Stack(w, h, v, layers, k, x, y))
  {
    if k > 0 {
      ComposeIsBlend(tx, w, h, v, layers, k - 1, x, y);
      var l, below := layers[k - 1], Compose(tx, w, h, v, layers, k - 1, x, y);
      if Contains(l.hwc.frame, x, y) && IsImage(l) {
        var r := ReadVia(v, w, h, l.hwc, x, y);
        var rest := if Replaces(l) then [] else Stack(w, h, v, layers, k - 1, x, y);
        assert ([r] + rest)[1..] == rest;
        OverClear(Fetch(tx, r));
        if Replaces(l) {
          ReplacesHides(tx, w, h, v, l, x, y, below, CLEAR);
        }
      }
    }
  }

  // ----- Stacks decide -----

  predicate OpaqueRead(r: Read) { r.Buffer().Native? && IsOpaque(r.Buffer().format) }

  /** Nothing lies below a read without alpha. */
  ghost predicate Layered(rs: seq<Read>) {
    forall i :: 0 <= i < |rs| - 1 ==> !OpaqueRead(rs[i])
  }

  lemma {:induction false} StackLayered(w: int, h: int, v: View, layers: seq<RgzLayer>, k: nat, x: int, y: int)
    requires k <= |layers| && SafeHandles(layers)
    ensures Layered(Stack(w, h, v, layers, k, x, y))
  {
    if k > 0 {
      StackLayered(w, h, v, layers, k - 1, x, y);
      var l := layers[k - 1];
      if IsImage(l) {
        ReadsOwnBuffer(w, h, l.hwc, if v.CutTo? then v.cell else l.hwc.frame, x, y);
      }
    }
  }

  /** Red where `d` is read and black elsewhere; three quarters opaque where there is alpha. */
  function LitPixel(d: Read, r: Read): Pixel {
    var a := if OpaqueRead(r) then 1.0 else 0.75;
    Pixel(if r == d then a else 0.0, 0.0, 0.0, a)
  }

  function LitOnly(d: Read): Textures {
    Textures((h: Handle, x: int, y: int) => LitPixel(d, Exact(h, x, y)), (q: ScaledRead) => LitPixel(d, Through(q)))
  }

  lemma LitFetch(d: Read, r: Read)
    ensures OpaqueFormats(LitOnly(d)) && Fetch(LitOnly(d), r) == LitPixel(d, r)
  {
  }

  /** The blend is mostly red exactly if the lit read is on top. */
  lemma {:induction false} RedOnTop(d: Read, rs: seq<Read>)
    ensures var red := Blend(LitOnly(d), rs).r;
            0.0 <= red <= 1.0 && if rs != [] && rs[0] == d then red >= 0.75 else red <= 0.25
    decreases |rs|
  {
    if rs != [] {
      RedOnTop(d, rs[1..]);
      LitFetch(d, rs[0]);
    }
  }

  /** Two stacks differ in colour when lit where they first differ. */
  lemma {:induction false} FirstDifferenceShows(a: seq<Read>, b: seq<Read>) returns (d: Read)
    requires a != b && Layered(a) && Layered(b)
    ensures Blend(LitOnly(d), a).r != Blend(LitOnly(d), b).r
    decreases |a|
  {
    if a != [] && b != [] && a[0] == b[0] {
      assert a == [a[0]] + a[1..] && b == [b[0]] + b[1..];
      d := FirstDifferenceShows(a[1..], b[1..]);
      LitFetch(d, a[0]);
    } else {
      d := if a != [] then a[0] else b[0];
      RedOnTop(d, a);
      RedOnTop(d, b);
    }
  }

  /** Whatever the buffers hold, two stacks blend to the same pixel: exactly if they are the same. */
  lemma BlendsAlikeExactly(a: seq<Read>, b: seq<Read>)
    requires Layered(a) && Layered(b)
    ensures (forall tx :: OpaqueFormats(tx) ==> Blend(tx, a) == Blend(tx, b)) <==> a == b
  {
    if a != b {
      var d := FirstDifferenceShows(a, b);
      LitFetch(d, d);
    }
  }

  /** Two views of two layer lists show the same at a pixel, whatever the buffers hold. */
  ghost predicate SameShown(w: int, h: int, v: View, a: seq<RgzLayer>, u: View, b: seq<RgzLayer>, x: int, y: int)
    requires SafeHandles(a) && SafeHandles(b)
  {
    forall tx :: OpaqueFormats(tx) ==> ComposeAll(tx, w, h, v, a, x, y) == ComposeAll(tx, w, h, u, b, x, y)
  }

  /** Main result: that is so exactly if their stacks are the same. */
  lemma ShownAlikeExactly(w: int, h: int, v: View, a: seq<RgzLayer>, u: View, b: seq<RgzLayer>, x: int, y: int)
    requires SafeHandles(a) && SafeHandles(b)
    ensures SameShown(w, h, v, a, u, b, x, y)
            <==> Stack(w, h, v, a, |a|, x, y) == Stack(w, h, u, b, |b|, x, y)
  {
    var s, t := Stack(w, h, v, a, |a|, x, y), Stack(w, h, u, b, |b|, x, y);
    StackLayered(w, h, v, a, |a|, x, y);
    StackLayered(w, h, u, b, |b|, x, y);
    BlendsAlikeExactly(s, t);
    forall tx | OpaqueFormats(tx)
      ensures ComposeAll(tx, w, h, v, a, x, y) == Blend(tx, s) && ComposeAll(tx, w, h, u, b, x, y) == Blend(tx, t)
    {
      ComposeIsBlend(tx, w, h, v, a, |a|, x, y);
      ComposeIsBlend(tx, w, h, u, b, |b|, x, y);
    }
  }

  // ----- When pieces are right -----

  /** Unscaled mirror images are NV12. */
  ghost predicate AllBlittable(s: seq<RgzLayer>) {
    forall i :: 0 <= i < |s| && IsImage(s[i]) ==> Blittable(s[i].hwc)
  }

  /** Every image that can be seen at the pixel may be cut out for the cell. */
  predicate VisiblyDrawable(layers: seq<RgzLayer>, k: nat, cell: Rect, x: int, y: int)
    requires k <= |layers| && SafeHandles(layers)
  {
    k > 0 ==>
      var l := layers[k - 1];
      if !Contains(l.hwc.frame, x, y) then VisiblyDrawable(layers, k - 1, cell, x, y)
      else !IsImage(l) ||
           (Drawable(l.hwc, cell) && (Replaces(l) || VisiblyDrawable(layers, k - 1, cell, x, y)))
  }

  /** A cell's pieces read what whole layers show exactly if all that can be seen may be cut out. */
  lemma {:induction false} PiecesRightExactly(w: int, h: int, layers: seq<RgzLayer>, k: nat, cell: Rect, x: int, y: int)
    requires k <= |layers| && SafeHandles(layers) && AllBlittable(layers)
    ensures Stack(w, h, CutTo(cell), layers, k, x, y) == Stack(w, h, Whole, layers, k, x, y)
            <==> VisiblyDrawable(layers, k, cell, x, y)
  {
    if k > 0 {
      PiecesRightExactly(w, h, layers, k - 1, cell, x, y);
      var l := layers[k - 1];
      if Contains(l.hwc.frame, x, y) && IsImage(l) {
        PieceReadsLayer(w, h, l.hwc, cell, x, y);
        SameHeads(ReadVia(CutTo(cell), w, h, l.hwc, x, y), Stack(w, h, CutTo(cell), layers, k - 1, x, y),
                  ReadVia(Whole, w, h, l.hwc, x, y), Stack(w, h, Whole, layers, k - 1, x, y));
        SameHeads(ReadVia(CutTo(cell), w, h, l.hwc, x, y), [], ReadVia(Whole, w, h, l.hwc, x, y), []);
      }
    }
  }

  lemma SameHeads(r: Read, s: seq<Read>, q: Read, t: seq<Read>)
    ensures [r] + s == [q] + t <==> r == q && s == t
  {
    if [r] + s == [q] + t {
      assert ([r] + s)[0] == ([q] + t)[0];
      assert ([r] + s)[1..] == s && ([q] + t)[1..] == t;
    }
  }
}
