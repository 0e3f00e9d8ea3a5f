/** Premultiplied colours over exact reals, and the blend BVBLEND_SRC1OVER / premultiplied alpha. */
module Pixels {
  datatype Pixel = Pixel(r: real, g: real, b: real, a: real)

  const CLEAR := Pixel(0.0, 0.0, 0.0, 0.0)

  function Mix(p: real, a: real, q: real): real { p + (1.0 - a) * q }

  function Over(s: Pixel, d: Pixel): Pixel {
    Pixel(Mix(s.r, s.a, d.r), Mix(s.g, s.a, d.g), Mix(s.b, s.a, d.b), Mix(s.a, s.a, d.a))
  }

  lemma OverClear(s: Pixel)
    ensures Over(s, CLEAR) == s
  {
  }

  lemma OverOpaque(s: Pixel, d: Pixel)
    requires s.a == 1.0
    ensures Over(s, d) == s
  {
  }

  lemma MixAssociative(p: real, q: real, r: real, a: real, b: real)
    ensures Mix(p, a, Mix(q, b, r)) == Mix(Mix(p, a, q), Mix(a, a, b), r)
  {
    calc {
      p + (1.0 - a) * (q + (1.0 - b) * r);
      p + (1.0 - a) * q + (1.0 - a) * ((1.0 - b) * r);
      { assert (1.0 - a) * ((1.0 - b) * r) == (1.0 - (a + (1.0 - a) * b)) * r; }
      p + (1.0 - a) * q + (1.0 - (a + (1.0 - a) * b)) * r;
    }
  }

  lemma OverAssociative(s: Pixel, d: Pixel, e: Pixel)
    ensures Over(s, Over(d, e)) == Over(Over(s, d), e)
  {
    MixAssociative(s.r, d.r, e.r, s.a, d.a);
    MixAssociative(s.g, d.g, e.g, s.a, d.a);
    MixAssociative(s.b, d.b, e.b, s.a, d.a);
    MixAssociative(s.a, d.a, e.a, s.a, d.a);
  }
}
