/** Quarter-turn views of rectangles, and what they do to the points inside them. */
module Rotation {
  import opened Geometry

  /** Any number of quarter turns, in degrees, of either sign. */
  type Angle = o: int | o % 90 == 0

  lemma QuarterTurns(o: int, q: int)
    requires o == 90 * q
    ensures o % 90 == 0
  {
    assert 90 * (o / 90 - q) == -(o % 90);
  }

  function Plus(o: Angle, p: Angle): (r: Angle)
    ensures r == o + p
  {
    QuarterTurns(o + p, o / 90 + p / 90);
    o + p
  }

  function Minus(o: Angle): (r: Angle)
    ensures r == -o
  {
    QuarterTurns(-o, -(o / 90));
    -o
  }

  /** The angle brought into 0..359 by the truncating remainder, as in `rgz_get_rotated_view`. */
  function Normal(o: int): int {
    (CRem(o, 360) + 360) % 360
  }

  lemma RemainderIs(a: int, q: int, r: int)
    requires a == 360 * q + r && 0 <= r < 360
    ensures a % 360 == r
  {
    assert 360 * (a / 360 - q) == r - a % 360;
  }

  /** C's truncation is undone: the result is the mathematical remainder. */
  lemma NormalIsRemainder(o: int)
    ensures Normal(o) == o % 360
  {
    if o < 0 {
      var q, r := (-o) / 360, (-o) % 360;
      RemainderIs(o, if r == 0 then -q else -q - 1, if r == 0 then 0 else 360 - r);
    }
  }

  lemma NormalAdds(o: int, p: int)
    ensures Normal(o + p) == (Normal(o) + Normal(p)) % 360
  {
    NormalIsRemainder(o);
    NormalIsRemainder(p);
    NormalIsRemainder(o + p);
    var r := o % 360 + p % 360;
    var c := if r < 360 then 0 else 1;
    RemainderIs(o + p, o / 360 + p / 360 + c, r - 360 * c);
    RemainderIs(r, c, r - 360 * c);
  }

  lemma NormalQuarter(o: Angle)
    ensures Normal(o) in {0, 90, 180, 270}
  {
    NormalIsRemainder(o);
    assert o % 360 == o - 360 * (o / 360);
  }

  /** The angles that survive normalisation. */
  type Quarter = n: int | n in {0, 90, 180, 270}

  function Sum(n: Quarter, m: Quarter): Quarter {
    if n + m < 360 then n + m else n + m - 360
  }

  function ToQuarter(o: Angle): Quarter
  {
    NormalQuarter(o);
    Normal(o)
  }

  lemma QuarterAdds(o: Angle, p: Angle)
    ensures ToQuarter(Plus(o, p)) == Sum(ToQuarter(o), ToQuarter(p))
  {
    NormalAdds(o, p);
    NormalQuarter(o);
    NormalQuarter(p);
  }

  predicate Sideways(n: Quarter) { n == 90 || n == 270 }

  /** The switch and the swap of `rgz_get_rotated_view`. */
  function QuarterView(outer: Rect, inner: Rect, n: Quarter): Rect {
    var deltaTop := inner.top - outer.top;
    var deltaLeft := inner.left - outer.left;
    var (left, top) :=
      match n
      case 0 => (deltaLeft, deltaTop)
      case 180 => (outer.Width() - inner.Width() - deltaLeft, outer.Height() - inner.Height() - deltaTop)
      case 90 => (outer.Height() - inner.Height() - deltaTop, deltaLeft)
      case _ => (deltaTop, outer.Width() - inner.Width() - deltaLeft);
    if Sideways(n)
    then Rect(left, top, left + inner.Height(), top + inner.Width())
    else Rect(left, top, left + inner.Width(), top + inner.Height())
  }

  /** `rgz_get_rotated_view`: the clockwise rotated view of `inner`, relative to `outer`. */
  function RotatedView(outer: Rect, inner: Rect, orientation: Angle): Rect
  {
    QuarterView(outer, inner, ToQuarter(orientation))
  }

  /** Where pixel (x, y) of a `w` by `h` image lands after turning the image clockwise. */
  function Turn(w: int, h: int, n: Quarter, x: int, y: int): (int, int) {
    match n
    case 0 => (x, y)
    case 90 => (h - 1 - y, x)
    case 180 => (w - 1 - x, h - 1 - y)
    case _ => (y, w - 1 - x)
  }

  /** A rotated view holds exactly the turned points of the rectangle it views. */
  lemma ViewHoldsTurnedPoints(outer: Rect, inner: Rect, n: Quarter, x: int, y: int)
    ensures var (u, v) := Turn(outer.Width(), outer.Height(), n, x - outer.left, y - outer.top);
            Contains(QuarterView(outer, inner, n), u, v) <==> Contains(inner, x, y)
  {
  }

  /** Turning by `n` and then by `m` is turning by their sum. */
  lemma TurnsCompose(w: int, h: int, n: Quarter, m: Quarter, x: int, y: int)
    ensures var (u, v) := Turn(w, h, n, x, y);
            var (w', h') := if Sideways(n) then (h, w) else (w, h);
            Turn(w', h', m, u, v) == Turn(w, h, Sum(n, m), x, y)
  {
  }

  /** So do views. */
  lemma ViewsCompose(w: int, h: int, r: Rect, o: Angle, p: Angle)
    ensures var turned := if Sideways(ToQuarter(o)) then Screen(h, w) else Screen(w, h);
            RotatedView(turned, RotatedView(Screen(w, h), r, o), p) == RotatedView(Screen(w, h), r, Plus(o, p))
  {
    QuarterAdds(o, p);
  }

  /** A view turned back is the rectangle it came from. */
  lemma ViewsInvert(w: int, h: int, r: Rect, o: Angle)
    ensures var turned := if Sideways(ToQuarter(o)) then Screen(h, w) else Screen(w, h);
            RotatedView(turned, RotatedView(Screen(w, h), r, o), Minus(o)) == r
  {
    ViewsCompose(w, h, r, o, Minus(o));
  }
}
