/** Integer screen geometry: half-open rectangles, as `blit_rect_t` and `hwc_rect_t`. */
module Geometry {
  datatype Rect = Rect(left: int, top: int, right: int, bottom: int) {
    function Width(): int { right - left }
    function Height(): int { bottom - top }
  }

  const ZERO_RECT := Rect(0, 0, 0, 0)

  function Min(a: int, b: int): int { if a < b then a else b }

  function Max(a: int, b: int): int { if a > b then a else b }

  /** The macro RECT_INTERSECTS. */
  predicate Intersects(a: Rect, b: Rect) {
    a.bottom > b.top && a.top < b.bottom && a.right > b.left && a.left < b.right
  }

  predicate Contains(r: Rect, x: int, y: int) {
    r.left <= x < r.right && r.top <= y < r.bottom
  }

  function Screen(w: int, h: int): Rect { Rect(0, 0, w, h) }

  /** `r` cut down to a `w` by `h` screen. */
  function ClipTo(w: int, h: int, r: Rect): Rect {
    Rect(Max(0, r.left), Max(0, r.top), Min(w, r.right), Min(h, r.bottom))
  }

  /** C's `%`: the remainder has the sign of the dividend. */
  function CRem(a: int, b: int): int
    requires b > 0
  {
    if a >= 0 then a % b else -((-a) % b)
  }

  /** C's `/`: the quotient is truncated toward zero. */
  function CDiv(a: int, b: int): int
    requires b > 0
  {
    if a >= 0 then a / b else -((-a) / b)
  }
}
