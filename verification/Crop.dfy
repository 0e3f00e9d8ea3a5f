/** `crop_to_rect`: cutting an overlay's window to the visible part, and its source crop with it. */
module Crop {
  import opened Geometry

  datatype Box = Box(x: int, y: int, w: int, h: int)

  /** `rotation` counts clockwise quarter turns; `mirror` flips left and right afterwards. */
  datatype Config = Config(win: Box, crop: Box, rotation: nat, mirror: bool)

  /** One axis of a box. A source axis may run backwards: then `wh` is negative. */
  datatype Side = Side(xy: int, wh: int)

  function Flip(s: Side): Side { Side(s.xy + s.wh, -s.wh) }

  predicate Sideways(c: Config) { c.rotation % 2 == 1 }

  predicate UpsideDown(c: Config) { c.rotation / 2 % 2 == 1 }

  /** The alignment step: axes of the source, turned to run along those of the display. */
  function Align(c: Config, s: seq<Side>): (r: seq<Side>)
    requires |s| == 2
    ensures |r| == 2
  {
    var swap := if Sideways(c) then 1 else 0;
    var s1 := if Sideways(c) then s[1 := Flip(s[1])] else s;
    var s2 := if UpsideDown(c) then s1[1 - swap := Flip(s1[1 - swap])] else s1;
    if c.mirror != UpsideDown(c) then s2[swap := Flip(s2[swap])] else s2
  }

  /** The realignment step: the same flips in another order. */
  function Realign(c: Config, s: seq<Side>): (r: seq<Side>)
    requires |s| == 2
    ensures |r| == 2
  {
    var swap := if Sideways(c) then 1 else 0;
    var s1 := if UpsideDown(c) then s[1 - swap := Flip(s[1 - swap])] else s;
    var s2 := if c.mirror != UpsideDown(c) then s1[swap := Flip(s1[swap])] else s1;
    if Sideways(c) then s2[1 := Flip(s2[1])] else s2
  }

  // ----- Where the display's axes run in the source -----

  /** The display position of source point (x, y) of a `w` by `h` source: turned, then mirrored. */
  function Shown(c: Config, w: int, h: int, x: int, y: int): (int, int) {
    var (u, v) :=
      if c.rotation % 4 == 0 then (x, y)
      else if c.rotation % 4 == 1 then (h - y, x)
      else if c.rotation % 4 == 2 then (w - x, h - y)
      else (y, w - x);
    (if c.mirror then (if Sideways(c) then h else w) - u else u, v)
  }

  /** The source axis along display axis `i`, and whether it runs backwards. */
  function Along(c: Config, i: nat): nat
    requires i < 2
  {
    if Sideways(c) then 1 - i else i
  }

  predicate Backwards(c: Config, i: nat)
    requires i < 2
  {
    if i == 0 then c.mirror != (c.rotation % 4 in {1, 2}) else c.rotation % 4 in {2, 3}
  }

  /** These are the axes of the display transformation. */
  lemma AxesOfDisplay(c: Config, w: int, h: int, x: int, y: int)
    ensures var (u, v) := Shown(c, w, h, x, y);
            var (p, size) := ([x, y], [w, h]);
            && u == (if Backwards(c, 0) then size[Along(c, 0)] - p[Along(c, 0)] else p[Along(c, 0)])
            && v == (if Backwards(c, 1) then size[Along(c, 1)] - p[Along(c, 1)] else p[Along(c, 1)])
  {
  }

  /** The alignment step flips exactly the axes that run backwards. */
  lemma AlignFlipsBackwards(c: Config, s: seq<Side>, i: nat)
    requires |s| == 2 && i < 2
    ensures var a := Along(c, i);
            Align(c, s)[a] == (if Backwards(c, i) then Flip(s[a]) else s[a])
            && Realign(c, s)[a] == (if Backwards(c, i) then Flip(s[a]) else s[a])
  {
    Quarters(c);
  }

  lemma Quarters(c: Config)
    ensures Sideways(c) <==> c.rotation % 4 in {1, 3}
    ensures UpsideDown(c) <==> c.rotation % 4 in {2, 3}
  {
    var q, r := c.rotation / 4, c.rotation % 4;
    assert c.rotation == 4 * q + r;
    assert c.rotation / 2 == 2 * q + r / 2;
  }

  // ----- One axis -----

  /** C's quotient of `a * b` by `d`: truncated toward zero. */
  function Scale(a: int, b: int, d: int): int
    requires d > 0
  {
    CDiv(a * b, d)
  }

  /** Where cutting one axis gives up. */
  predicate Gone(win: Side, crop: Side, lo: int, hi: int) {
    win.wh <= 0 || hi <= lo || win.xy + win.wh <= lo || win.xy >= hi || crop.wh == 0
  }

  function CutLow(win: Side, crop: Side, lo: int): (Side, Side)
    requires win.wh > 0
  {
    if win.xy < lo then
      var a := Scale(lo - win.xy, crop.wh, win.wh);
      (Side(lo, win.wh - (lo - win.xy)), Side(crop.xy + a, crop.wh - a))
    else (win, crop)
  }

  function CutHigh(win: Side, crop: Side, hi: int): (Side, Side)
    requires win.wh > 0
  {
    if win.xy + win.wh > hi
    then (Side(win.xy, hi - win.xy), Side(crop.xy, Scale(crop.wh, hi - win.xy, win.wh)))
    else (win, crop)
  }

  lemma ScaleFloor(a: int, b: int, d: int)
    requires a >= 0 && d > 0
    ensures b >= 0 ==> var q := Scale(a, b, d); q >= 0 && 0 <= a * b - q * d < d
    ensures b <= 0 ==> Scale(a, b, d) == -Scale(a, -b, d)
    ensures Scale(b, a, d) == Scale(a, b, d)
  {
    assert a * b == b * a && a * (-b) == -(a * b);
    if b >= 0 {
      assert a * b >= 0;
      assert a * b == d * (a * b / d) + a * b % d;
    }
  }

  lemma Monotone(a: int, b: int, f: int)
    requires a <= b && f > 0
    ensures a * f <= b * f && (a < b ==> a * f < b * f)
  {
    assert (b - a) * f == b * f - a * f;
  }

  /** A part of a length scales to a part of it. */
  lemma ScaleBelow(a: int, b: int, d: int)
    requires 0 <= a <= d && d > 0 && b > 0
    ensures 0 <= Scale(a, b, d) <= b
    ensures a < d ==> Scale(a, b, d) < b
  {
    ScaleFloor(a, b, d);
    var q := Scale(a, b, d);
    Monotone(a, d, b);
    if q >= b { Monotone(b, q, d); }
    if q >= b + 1 { Monotone(b + 1, q, d); }
  }

  /** An axis of the source along a display axis: forwards, or backwards from its end. */
  function Facing(start: int, len: int, back: bool): Side {
    if back then Flip(Side(start, len)) else Side(start, len)
  }

  /** How far the visible range cuts into the low end of the window. */
  function LowCut(win: Side, lo: int): int { Max(0, lo - win.xy) }

  /** Both roundings make the far end lose: up to one pixel too little, but up to two too much. */
  predicate FarWithinTwo(unit: int, far: int, share: int) { -unit < far * unit - share < 2 * unit }

  /** `out` is the source range `start..start+len` cut in proportion to the window, up to rounding. */
  ghost predicate CutInProportion(win: Side, start: int, len: int, back: bool, lo: int, hi: int, out: Side)
    requires win.wh > 0
  {
    var d := LowCut(win, lo);
    var visible := Min(win.xy + win.wh, hi) - Max(win.xy, lo);
    // what goes at the end that faces the display's low side
    var near := if back then start + len - (out.xy + out.wh) else out.xy - start;
    && start <= out.xy && out.xy + out.wh <= start + len && 0 <= near < len
    // within one source pixel of the exact share
    && 0 <= d * len - near * win.wh < win.wh
    // and likewise for what stays of the rest
    && 0 <= (len - near) * visible - out.wh * (win.wh - d) < win.wh - d
    // so that what stays is within one source pixel of its exact share too, on either side
    && -win.wh < out.wh * win.wh - len * visible < win.wh
    // and what goes at the far end within two
    && FarWithinTwo(win.wh, len - near - out.wh, len * (win.wh - d - visible))
    // nothing visible is lost when nothing is cut
    && (lo <= win.xy && win.xy + win.wh <= hi ==> out == Side(start, len))
  }

  lemma CutLowFacing(win: Side, start: int, len: int, back: bool, lo: int)
    requires win.wh > 0 && len > 0 && win.xy + win.wh > lo
    ensures var d := LowCut(win, lo);
            var near := Scale(d, len, win.wh);
            && 0 <= near < len && 0 <= d * len - near * win.wh < win.wh
            && CutLow(win, Facing(start, len, back), lo)
               == (Side(win.xy + d, win.wh - d),
                   if back then Facing(start, len - near, true) else Facing(start + near, len - near, false))
  {
    var d := LowCut(win, lo);
    ScaleFloor(d, len, win.wh);
    ScaleFloor(d, -len, win.wh);
    ScaleBelow(d, len, win.wh);
  }

  lemma CutHighFacing(win: Side, start: int, len: int, back: bool, hi: int)
    requires win.wh > 0 && len > 0 && win.xy < hi
    ensures var visible := Min(win.wh, hi - win.xy);
            var rest := Scale(visible, len, win.wh);
            && 0 <= rest <= len && 0 <= len * visible - rest * win.wh < win.wh
            && (visible == win.wh ==> rest == len)
            && CutHigh(win, Facing(start, len, back), hi)
               == (Side(win.xy, visible),
                   if back then Facing(start + len - rest, rest, true) else Facing(start, rest, false))
  {
    var visible := Min(win.wh, hi - win.xy);
    ScaleFloor(visible, len, win.wh);
    ScaleFloor(visible, -len, win.wh);
    ScaleBelow(visible, len, win.wh);
    if visible == win.wh {
      WholeScale(len, win.wh);
    }
  }

  lemma WholeScale(len: int, d: int)
    requires len >= 0 && d > 0
    ensures Scale(d, len, d) == len
  {
    ScaleFloor(d, len, d);
    var q := Scale(d, len, d);
    assert d * len == len * d && (len - q) * d == d * len - q * d;
    assert 0 <= (len - q) * d < d;
  }

  /** The far cut is measured against what the rounded near cut left; both roundings are bounded. */
  lemma Shares(w: int, d: int, v: int, len: int, near: int, out: int)
    requires 0 <= d < w && 0 < v <= w - d
    requires 0 <= d * len - near * w < w && 0 <= (len - near) * v - out * (w - d) < w - d
    ensures -w < out * w - len * v < w && FarWithinTwo(w, len - near - out, len * (w - d - v))
  {
    var (a, b, rest) := (d * len - near * w, (len - near) * v - out * (w - d), w - d);
    var off := out * w - len * v;
    calc {
      off * rest;
      out * rest * w - len * v * rest;
      ((len - near) * v - b) * w - len * v * rest;
      { SharesEqual(w, d, v, len, near); }
      a * v - b * w;
    }
    ProductBelow(a, w, v, rest);
    ProductBelow(b, rest, w, w);
    Divides(off, w, rest);
    assert (len - near - out) * w - len * (w - d - v) == a - off;
  }

  lemma SharesEqual(w: int, d: int, v: int, len: int, near: int)
    ensures (len - near) * v * w - len * v * (w - d) == (d * len - near * w) * v
  {
    calc {
      (len - near) * v * w - len * v * (w - d);
      len * v * w - near * v * w - len * v * w + len * v * d;
      (d * len - near * w) * v;
    }
  }

  lemma ProductBelow(a: int, w: int, v: int, rest: int)
    requires 0 <= a < w && 0 < v <= rest
    ensures 0 <= a * v < w * rest
  {
    assert a * v <= a * rest;
    assert a * rest < w * rest;
  }

  lemma Divides(off: int, w: int, rest: int)
    requires rest > 0 && w > 0 && -(w * rest) < off * rest < w * rest
    ensures -w < off < w
  {
    assert off >= w ==> off * rest >= w * rest;
    assert off <= -w ==> off * rest <= -w * rest;
  }

  /** More than one pixel too much really goes: of 133 pixels, 128 where the exact share is 126.35. */
  lemma FarCutTooLarge()
    ensures var (w2, c2) := CutBoth(Side(0, 100), Side(0, 133), 3, 5);
            c2 == Side(3, 2) && (133 - 3 - c2.wh) * 100 - 133 * (100 - 3 - 2) > 100
  {
    assert Scale(3, 133, 100) == 3 && Scale(130, 2, 97) == 2;
  }

  /** Both cuts of one axis, as the loop body makes them. */
  function CutBoth(win: Side, crop: Side, lo: int, hi: int): (Side, Side)
    requires !Gone(win, crop, lo, hi)
  {
    var (w1, c1) := CutLow(win, crop, lo);
    CutHigh(w1, c1, hi)
  }

  lemma NothingCut(near: int, len: int, w: int)
    requires near >= 0 && w > 0 && 0 <= 0 * len - near * w
    ensures near == 0
  {
    assert near >= 1 ==> near * w >= w;
  }

  lemma CutAxis(win: Side, start: int, len: int, back: bool, lo: int, hi: int)
    requires len > 0 && !Gone(win, Facing(start, len, back), lo, hi)
    ensures var (w2, c2) := CutBoth(win, Facing(start, len, back), lo, hi);
            var out := if back then Flip(c2) else c2;
            && w2 == Side(Max(win.xy, lo), Min(win.xy + win.wh, hi) - Max(win.xy, lo)) && w2.wh > 0
            && CutInProportion(win, start, len, back, lo, hi, out)
            && out.wh >= 0 && (c2.wh == 0 <==> out.wh == 0)
  {
    var d := LowCut(win, lo);
    var near := Scale(d, len, win.wh);
    CutLowFacing(win, start, len, back, lo);
    var w1 := Side(win.xy + d, win.wh - d);
    if back {
      CutHighFacing(w1, start, len - near, true, hi);
    } else {
      CutHighFacing(w1, start + near, len - near, false, hi);
    }
    if d == 0 { NothingCut(near, len, win.wh); }
    var visible := Min(w1.wh, hi - w1.xy);
    Shares(win.wh, d, visible, len, near, Scale(visible, len - near, w1.wh));
  }

  // ----- The whole function -----

  function Sides(b: Box): seq<Side> { [Side(b.x, b.w), Side(b.y, b.h)] }

  function Lows(r: Rect): seq<int> { [r.left, r.top] }

  function Highs(r: Rect): seq<int> { [r.right, r.bottom] }

  /** The window's part inside the visible rectangle. */
  function Visible(win: Box, vis: Rect): Box {
    var (x, y) := (Max(win.x, vis.left), Max(win.y, vis.top));
    Box(x, y, Min(win.x + win.w, vis.right) - x, Min(win.y + win.h, vis.bottom) - y)
  }

  /** Along display axis `i` the configuration `c'` is `c` cut in proportion. */
  ghost predicate AxisCut(c: Config, vis: Rect, c': Config, i: nat)
    requires i < 2 && c.win.w > 0 && c.win.h > 0
  {
    var s := Sides(c.crop)[Along(c, i)];
    CutInProportion(Sides(c.win)[i], s.xy, s.wh, Backwards(c, i), Lows(vis)[i], Highs(vis)[i],
                    Sides(c'.crop)[Along(c, i)])
  }

  /** The window and the aligned source along display axis `i`. */
  function WinAxis(c: Config, i: nat): Side
    requires i < 2
  {
    Sides(c.win)[i]
  }

  function CropAxis(c: Config, i: nat): Side
    requires i < 2
  {
    Align(c, Sides(c.crop))[Along(c, i)]
  }

  /** Where the loop gives up at axis `i`: nothing is visible, or nothing of the source is left. */
  predicate AxisFails(c: Config, vis: Rect, i: nat)
    requires i < 2
  {
    Gone(WinAxis(c, i), CropAxis(c, i), Lows(vis)[i], Highs(vis)[i])
    || CutBoth(WinAxis(c, i), CropAxis(c, i), Lows(vis)[i], Highs(vis)[i]).1.wh == 0
  }

  lemma AxisResult(c: Config, vis: Rect, i: nat)
    requires i < 2 && c.crop.w >= 0 && c.crop.h >= 0
    requires !Gone(WinAxis(c, i), CropAxis(c, i), Lows(vis)[i], Highs(vis)[i])
    ensures var s := Sides(c.crop)[Along(c, i)];
            var (win, lo, hi) := (WinAxis(c, i), Lows(vis)[i], Highs(vis)[i]);
            var (w2, c2) := CutBoth(win, CropAxis(c, i), lo, hi);
            var out := if Backwards(c, i) then Flip(c2) else c2;
            && w2 == Side(Max(win.xy, lo), Min(win.xy + win.wh, hi) - Max(win.xy, lo)) && w2.wh > 0
            && CutInProportion(win, s.xy, s.wh, Backwards(c, i), lo, hi, out)
            && out.wh >= 0 && (c2.wh == 0 <==> out.wh == 0)
  {
    AlignFlipsBackwards(c, Sides(c.crop), i);
    var s := Sides(c.crop)[Along(c, i)];
    CutAxis(WinAxis(c, i), s.xy, s.wh, Backwards(c, i), Lows(vis)[i], Highs(vis)[i]);
  }

  /** How much of the window is visible. */
  function Seen(win: Side, lo: int, hi: int): int { Min(win.xy + win.wh, hi) - Max(win.xy, lo) }

  /**
    Something of a source of `len` pixels is left: the window is there and can be seen, and the visible
    share of what the low cut leaves is a whole pixel at least. The direction does not matter.
   */
  predicate Survives(win: Side, len: int, lo: int, hi: int) {
    && win.wh > 0 && lo < hi && Seen(win, lo, hi) > 0 && len > 0
    && (len - LowCut(win, lo) * len / win.wh) * Seen(win, lo, hi) >= win.wh - LowCut(win, lo)
  }

  lemma WholePixelLeft(rest: int, unit: int, share: int)
    requires unit > 0 && rest >= 0 && 0 <= share - rest * unit < unit
    ensures rest > 0 <==> share >= unit
  {
    if rest > 0 { assert rest * unit >= unit; }
  }

  /** The loop gives up at an axis exactly if nothing is left of it. */
  lemma FailsExactly(c: Config, vis: Rect, i: nat)
    requires i < 2 && c.crop.w >= 0 && c.crop.h >= 0
    ensures AxisFails(c, vis, i)
            <==> !Survives(WinAxis(c, i), Sides(c.crop)[Along(c, i)].wh, Lows(vis)[i], Highs(vis)[i])
  {
    AlignFlipsBackwards(c, Sides(c.crop), i);
    var (win, len, lo, hi) := (WinAxis(c, i), Sides(c.crop)[Along(c, i)].wh, Lows(vis)[i], Highs(vis)[i]);
    if !Gone(win, CropAxis(c, i), lo, hi) {
      AxisResult(c, vis, i);
      NearCut(c, vis, i);
    }
  }

  lemma NearCut(c: Config, vis: Rect, i: nat)
    requires i < 2 && c.crop.w >= 0 && c.crop.h >= 0
    requires !Gone(WinAxis(c, i), CropAxis(c, i), Lows(vis)[i], Highs(vis)[i])
    ensures var (win, s, lo, hi) := (WinAxis(c, i), Sides(c.crop)[Along(c, i)], Lows(vis)[i], Highs(vis)[i]);
            CutBoth(win, CropAxis(c, i), lo, hi).1.wh == 0 <==> !Survives(win, s.wh, lo, hi)
  {
    AlignFlipsBackwards(c, Sides(c.crop), i);
    var (win, s, lo, hi) := (WinAxis(c, i), Sides(c.crop)[Along(c, i)], Lows(vis)[i], Highs(vis)[i]);
    AxisResult(c, vis, i);
    var c2 := CutBoth(win, CropAxis(c, i), lo, hi).1;
    var out := if Backwards(c, i) then Flip(c2) else c2;
    var d := LowCut(win, lo);
    var near := if Backwards(c, i) then s.xy + s.wh - (out.xy + out.wh) else out.xy - s.xy;
    QuotientIs(d * s.wh, win.wh, near);
    WholePixelLeft(out.wh, win.wh - d, (s.wh - near) * Seen(win, lo, hi));
  }

  lemma QuotientIs(n: int, d: int, q: int)
    requires d > 0 && 0 <= n - q * d < d
    ensures n / d == q
  {
    var r := n / d;
    assert n == r * d + n % d;
    if r < q { Monotone(r + 1, q, d); } else if r > q { Monotone(q + 1, r, d); }
  }

  /** A visible window whose visible share of the source is a pixel or more always survives. */
  lemma SharedSurvives(win: Side, len: int, lo: int, hi: int)
    requires win.wh > 0 && Seen(win, lo, hi) > 0 && lo < hi && len * Seen(win, lo, hi) >= win.wh
    ensures Survives(win, len, lo, hi)
  {
    var (w, d, v) := (win.wh, LowCut(win, lo), Seen(win, lo, hi));
    if len <= 0 { Monotone(len, 0, v); }
    var near := d * len / w;
    assert d * len == near * w + d * len % w;
    var out := (len - near) * v / (w - d);
    assert (len - near) * v == out * (w - d) + (len - near) * v % (w - d);
    Shares(w, d, v, len, near, out);
    if out <= 0 { Monotone(out, 0, w); }
    Monotone(1, out, w - d);
  }

  /** Nothing of the window is outside the visible rectangle. */
  predicate AllVisible(win: Box, vis: Rect) {
    && vis.left <= win.x && win.x + win.w <= vis.right
    && vis.top <= win.y && win.y + win.h <= vis.bottom
  }

  /** The first `n` axes have been cut, the others not yet. */
  ghost predicate CutSoFar(c: Config, vis: Rect, n: nat, win: seq<Side>, crop: seq<Side>) {
    |win| == |crop| == 2 && forall j: nat :: j < 2 ==>
      if j < n then
        !AxisFails(c, vis, j)
        && (win[j], crop[Along(c, j)]) == CutBoth(WinAxis(c, j), CropAxis(c, j), Lows(vis)[j], Highs(vis)[j])
      else win[j] == WinAxis(c, j) && crop[Along(c, j)] == CropAxis(c, j)
  }

  /** The loop over the two axes of the display. */
  method CutAxes(c: Config, vis: Rect) returns (ok: bool, win: seq<Side>, crop: seq<Side>)
    requires c.crop.w >= 0 && c.crop.h >= 0
    ensures ok <==> !AxisFails(c, vis, 0) && !AxisFails(c, vis, 1)
    ensures ok ==> CutSoFar(c, vis, 2, win, crop)
  {
    win := [Side(c.win.x, c.win.w), Side(c.win.y, c.win.h)];
    crop := Align(c, [Side(c.crop.x, c.crop.w), Side(c.crop.y, c.crop.h)]);
    for i := 0 to 2
      invariant CutSoFar(c, vis, i, win, crop)
    {
      var s := if Sideways(c) then 1 - i else i;
      if Gone(win[i], crop[s], Lows(vis)[i], Highs(vis)[i]) {
        return false, win, crop;
      }
      AxisResult(c, vis, i);
      var (w1, c1) := CutLow(win[i], crop[s], Lows(vis)[i]);
      var (w2, c2) := CutHigh(w1, c1, Highs(vis)[i]);
      win := win[i := w2];
      crop := crop[s := c2];
      if crop[s].wh == 0 || win[i].wh == 0 {
        return false, win, crop;
      }
    }
    ok := true;
  }

  /** The cut axes, turned back. */
  lemma RealignedAxis(c: Config, vis: Rect, win: seq<Side>, crop: seq<Side>, i: nat)
    requires c.crop.w >= 0 && c.crop.h >= 0 && i < 2 && CutSoFar(c, vis, 2, win, crop)
    ensures var s := Sides(c.crop)[Along(c, i)];
            var (w, lo, hi) := (WinAxis(c, i), Lows(vis)[i], Highs(vis)[i]);
            && w.wh > 0
            && win[i] == Side(Max(w.xy, lo), Min(w.xy + w.wh, hi) - Max(w.xy, lo)) && win[i].wh > 0
            && CutInProportion(w, s.xy, s.wh, Backwards(c, i), lo, hi, Realign(c, crop)[Along(c, i)])
            && Realign(c, crop)[Along(c, i)].wh > 0
  {
    AxisResult(c, vis, i);
    AlignFlipsBackwards(c, crop, i);
  }

  /**
    `crop_to_rect`; an empty source crop makes it fail. Success leaves the window equal to its
    visible part and the crop cut in proportion, inside the old crop and not empty.
   */
  method CropToRect(c: Config, vis: Rect) returns (ok: bool, c': Config)
    requires c.crop.w >= 0 && c.crop.h >= 0
    ensures ok <==> forall i: nat :: i < 2 ==>
              Survives(WinAxis(c, i), Sides(c.crop)[Along(c, i)].wh, Lows(vis)[i], Highs(vis)[i])
    ensures !ok ==> c' == c
    ensures ok ==> c.win.w > 0 && c.win.h > 0 && c'.win == Visible(c.win, vis) && c'.win.w > 0 && c'.win.h > 0
    ensures ok ==> c'.crop.w > 0 && c'.crop.h > 0 && c'.rotation == c.rotation && c'.mirror == c.mirror
    ensures ok ==> AxisCut(c, vis, c', 0) && AxisCut(c, vis, c', 1)
    ensures ok && AllVisible(c.win, vis) ==> c' == c
  {
    var win, crop;
    FailsExactly(c, vis, 0);
    FailsExactly(c, vis, 1);
    ok, win, crop := CutAxes(c, vis);
    if !ok {
      return false, c;
    }
    RealignedAxis(c, vis, win, crop, 0);
    RealignedAxis(c, vis, win, crop, 1);
    crop := Realign(c, crop);
    c' := Config(Box(win[0].xy, win[1].xy, win[0].wh, win[1].wh),
                 Box(crop[0].xy, crop[1].xy, crop[0].wh, crop[1].wh), c.rotation, c.mirror);
  }
}
