/** The choice of an HDMI mode by a score that packs seven preferences into one word. */
module HdmiModes {
  const U32 := 0x1_0000_0000

  /** 32-bit unsigned arithmetic. */
  function U(n: int): (r: nat)
    ensures 0 <= n < U32 ==> r == n
  {
    n % U32
  }

  function Not(n: nat): int { U32 - 1 - n }

  datatype Ratio = NoRatio | Ratio4To3 | Ratio16To9

  /** How much wider than high a pixel is. */
  type PixelShape = r: real | r >= 0.0

  // ----- Fitting a picture into a screen -----

  const TOLERANCE := 0.02

  /** The nearest whole number. */
  function Round(r: real): (n: nat)
    requires r >= 0.0
    ensures n as real - 0.5 <= r < n as real + 0.5
  {
    (r + 0.5).Floor
  }

  /**
    `get_max_dimensions`: the largest picture of `x` by `y` pixels, each `xpy` times as wide as high,
    in a screen of `scrX` by `scrY` pixels that measures `width` by `height`.
   */
  function Fitted(x: nat, y: nat, xpy: PixelShape, scrX: nat, scrY: nat, width: nat, height: nat): (nat, nat)
  {
    var (sw, sh) := Measures(scrX, scrY, width, height);
    Trimmed(Factor(x as real, xpy, sh as real), Factor(y as real, 1.0, sw as real), scrX, scrY)
  }

  /** A screen of unknown size is taken to have square pixels. */
  function Measures(scrX: nat, scrY: nat, width: nat, height: nat): (nat, nat) {
    if width == 0 || height == 0 then (scrX, scrY) else (width, height)
  }

  /** A side of the picture, relative to that of the screen. */
  function Factor(pixels: real, each: real, other: real): (f: real)
    requires pixels >= 0.0 && each >= 0.0 && other >= 0.0
    ensures f >= 0.0
  {
    pixels * each * other
  }

  /** The picture is `xf` wide when it is `yf` high, in units that make the screen a square. */
  function Trimmed(xf: real, yf: real, scrX: nat, scrY: nat): (nat, nat)
    requires xf >= 0.0 && yf >= 0.0
  {
    if xf < yf * (1.0 - TOLERANCE) then (Share(xf, yf, scrX), scrY)
    else if xf * (1.0 - TOLERANCE) > yf then (scrX, Share(yf, xf, scrY))
    else (scrX, scrY)
  }

  /** `a / b` of `n` pixels. */
  function Share(a: real, b: real, n: nat): nat
    requires 0.0 <= a < b
  {
    ShareBounds(a, b, n);
    Round(a * n as real / b)
  }

  lemma ShareBounds(a: real, b: real, n: nat)
    requires 0.0 <= a < b
    ensures 0.0 <= a * n as real / b <= n as real
  {
    var (m, q) := (n as real, a * n as real / b);
    assert q * b == a * m && (b - a) * m >= 0.0;
    if q > m { MulMore(m, q, b); }
    if q < 0.0 { MulMore(q, 0.0, b); }
  }

  lemma MulMore(x: real, y: real, b: real)
    requires x < y && b > 0.0
    ensures x * b < y * b
  {
    assert (y - x) * b > 0.0;
  }

  /** `r` rounded is `n`, give or take half a pixel. */
  predicate Nearly(n: nat, r: real) { -0.5 <= n as real - r <= 0.5 }

  lemma ShareNearly(a: real, b: real, n: nat, q: real)
    requires 0.0 <= a < b && q * b == a * n as real
    ensures Share(a, b, n) <= n && Nearly(Share(a, b, n), q)
  {
    ShareBounds(a, b, n);
    Quotient(a * n as real, b, q);
  }

  lemma Quotient(n: real, d: real, q: real)
    requires d > 0.0 && n == q * d
    ensures n / d == q
  {
    var r := n / d;
    assert r * d == q * d;
    if r < q { MulMore(r, q, d); } else if r > q { MulMore(q, r, d); }
  }

  lemma TrimmedShape(xf: real, yf: real, ratio: real, scrX: nat, scrY: nat)
    requires yf > 0.0 && ratio > 0.0 && xf == ratio * yf && xf >= 0.0
    ensures var (fx, fy) := Trimmed(xf, yf, scrX, scrY);
            && fx <= scrX && fy <= scrY && (fx == scrX || fy == scrY)
            && (ratio < 1.0 - TOLERANCE ==> Nearly(fx, scrX as real * ratio))
            && (ratio * (1.0 - TOLERANCE) > 1.0 ==> Nearly(fy, scrY as real / ratio))
            && (ratio >= 1.0 - TOLERANCE && ratio * (1.0 - TOLERANCE) <= 1.0 ==> fx == scrX && fy == scrY)
  {
    var t := 1.0 - TOLERANCE;
    WhichWay(xf, yf, ratio, t);
    if ratio < t {
      assert scrX as real * ratio * yf == xf * scrX as real;
      ShareNearly(xf, yf, scrX, scrX as real * ratio);
    } else if ratio * t > 1.0 {
      var q := scrY as real / ratio;
      assert q * xf == q * ratio * yf == yf * scrY as real;
      ShareNearly(yf, xf, scrY, q);
    }
  }

  lemma WhichWay(xf: real, yf: real, ratio: real, t: real)
    requires yf > 0.0 && ratio > 0.0 && xf == ratio * yf && 0.0 < t < 1.0
    ensures ratio < t <==> xf < yf * t
    ensures ratio * t > 1.0 <==> xf * t > yf
    ensures ratio < t ==> xf < yf
    ensures ratio * t > 1.0 ==> ratio > 1.0 && yf < xf
  {
    if ratio < t { MulMore(ratio, t, yf); } else { assert (ratio - t) * yf >= 0.0; }
    assert xf * t == ratio * t * yf;
    if ratio * t > 1.0 { MulMore(1.0, ratio * t, yf); } else { assert (1.0 - ratio * t) * yf >= 0.0; }
    MulMore(t, 1.0, yf);
    MulMore(t, 1.0, ratio);
    if ratio > 1.0 { MulMore(1.0, ratio, yf); }
  }

  /**
    The picture is inside the screen and fills it one way. `ratio` says how much wider than the screen
    it is: a picture that is narrower keeps its shape, and so does a wider one, up to half a pixel;
    only within the tolerance it takes the screen's shape.
   */
  lemma FittedShape(x: nat, y: nat, xpy: real, scrX: nat, scrY: nat, width: nat, height: nat, ratio: real)
    requires x > 0 && y > 0 && xpy > 0.0 && scrX > 0 && scrY > 0
    requires var (sw, sh) := Measures(scrX, scrY, width, height);
             ratio == (x as real * xpy / y as real) / (sw as real / sh as real)
    ensures var (fx, fy) := Fitted(x, y, xpy, scrX, scrY, width, height);
            && fx <= scrX && fy <= scrY && (fx == scrX || fy == scrY)
            && (ratio < 1.0 - TOLERANCE ==> Nearly(fx, scrX as real * ratio))
            && (ratio * (1.0 - TOLERANCE) > 1.0 ==> Nearly(fy, scrY as real / ratio))
            && (ratio >= 1.0 - TOLERANCE && ratio * (1.0 - TOLERANCE) <= 1.0 ==> fx == scrX && fy == scrY)
  {
    var (sw, sh) := Measures(scrX, scrY, width, height);
    RatioOf(x as real, xpy, y as real, sw as real, sh as real, ratio);
    TrimmedShape(Factor(x as real, xpy, sh as real), Factor(y as real, 1.0, sw as real), ratio, scrX, scrY);
  }

  lemma RatioOf(x: real, xpy: real, y: real, sw: real, sh: real, ratio: real)
    requires x > 0.0 && xpy > 0.0 && y > 0.0 && sw > 0.0 && sh > 0.0 && ratio == (x * xpy / y) / (sw / sh)
    ensures ratio > 0.0 && Factor(y, 1.0, sw) > 0.0 && Factor(x, xpy, sh) == ratio * Factor(y, 1.0, sw)
  {
    assert x * xpy > 0.0 && y * sw > 0.0;
    var (a, s) := (x * xpy / y, sw / sh);
    assert a * y == x * xpy && s * sh == sw;
    Positive(x * xpy, y);
    Positive(sw, sh);
    Positive(a, s);
    assert ratio * s == a;
    assert ratio * (y * sw) == ratio * s * (y * sh) == a * y * sh;
  }

  lemma Positive(n: real, d: real)
    requires n > 0.0 && d > 0.0
    ensures n / d > 0.0
  {
  }

  // ----- Modes -----

  /**
    A video mode. `fitX` by `fitY` is the picture that keeps the aspect ratio inside the mode, and
    `scalable` says whether the hardware can scale to that size at this pixel clock.
   */
  datatype Mode = Mode(xres: nat, yres: nat, interlaced: bool, otherVmode: bool, ratio: Ratio,
                       pixclock: nat, refresh: nat, fitX: nat, fitY: nat, scalable: bool) {
    function Lines(): nat { if interlaced then yres / 2 else yres }

    predicate Eligible() { xres != 0 && Lines() != 0 && pixclock != 0 && !otherVmode && scalable }

    /** The picture fits the mode, and no product below leaves 32 bits. */
    predicate Sized() {
      && fitX <= xres && fitY <= Lines() && fitX * fitY <= xres * Lines()
      && 17 * (xres * Lines()) < U32 && refresh < U32 / 240
    }
  }

  /** The picture to show, and the mode used for mirroring. */
  datatype Want = Want(xres: nat, yres: nat, xpy: PixelShape, mirrorMode: int, avoidModeChange: bool) {
    predicate Sized() { xres > 0 && yres > 0 && xres * 99 < U32 && yres * 99 < U32 && 16 * (xres * yres) < U32 }
  }

  // ----- The seven preferences -----

  datatype Merits = Merits(cea: bool, upscale: bool, same: bool, scaling: nat, leftover: nat, fast: bool, rate: nat)

  function Bit(b: bool): nat { if b then 1 else 0 }

  /** Modes at 5 modulo 6 hertz are meant to be one hertz faster. */
  function Rate(m: Mode): nat
  {
    var hz := if m.refresh == 0 then 1 else m.refresh;
    if hz % 6 == 5 then hz + 1 else hz
  }

  /** How close two numbers are, in parts of `n`. */
  function Closeness(n: nat, a: nat, b: nat): (r: nat)
    requires a > 0 || b > 0
    ensures r <= n && (a == b ==> r == n)
  {
    if a > b then CloseBounds(n, b, a); Div(n * b, a) else CloseBounds(n, a, b); Div(n * a, b)
  }

  lemma MulGrows(a: nat, b: nat, c: nat)
    ensures a <= b ==> a * c <= b * c
  {
  }

  lemma QuotientBound(n: nat, d: nat, q: nat)
    requires d > 0 && n < (q + 1) * d
    ensures Div(n, d) <= q && (n == q * d ==> Div(n, d) == q)
  {
    assert n == n / d * d + n % d;
    MulGrows(q + 1, n / d, d);
    MulGrows(n / d + 1, q, d);
  }

  lemma CloseBounds(n: nat, a: nat, b: nat)
    requires a <= b && b > 0
    ensures Div(n * a, b) <= n && (a == b ==> Div(n * a, b) == n)
  {
    MulGrows(a, b, n);
    QuotientBound(n * a, b, n);
  }

  /** What speaks for mode `i`, the most important first. */
  function MeritsOf(w: Want, m: Mode, i: nat): Merits
    requires w.Sized() && m.Eligible() && m.Sized()
  {
    Areas(w, m);
    Merits(m.ratio != NoRatio, Upscales(w, m), Preferred(w, i), Closeness(16, m.fitX * m.fitY, w.xres * w.yres),
           Filled(m.fitX * m.fitY, m.xres * m.Lines()), Rate(m) >= 60, Closeness(240, Rate(m), 60))
  }

  /** The picture need not shrink, give or take a percent. */
  predicate Upscales(w: Want, m: Mode) { m.fitX >= w.xres * 99 / 100 && m.fitY >= w.yres * 99 / 100 }

  predicate Preferred(w: Want, i: nat) { i == Not(U(w.mirrorMode)) && w.avoidModeChange }

  /** Modes are remembered by their complement: the one to keep is the one that was remembered. */
  lemma RememberedIsPreferred(w: Want, b: nat, i: nat)
    requires b < U32 && w.mirrorMode == Not(b)
    ensures Preferred(w, i) <==> i == b && w.avoidModeChange
  {
  }

  /** How much of the mode the picture covers, in sixteenths, rounded. */
  function Filled(fit: nat, all: nat): nat
    requires all > 0
  {
    Div(16 * fit + all / 2, all)
  }

  lemma Areas(w: Want, m: Mode)
    requires w.Sized() && m.Eligible() && m.Sized()
    ensures w.xres * w.yres > 0 && m.xres * m.Lines() > 0
  {
  }

  predicate InRange(p: Merits) { p.scaling <= 16 && p.leftover <= 16 && p.rate <= 240 }

  lemma MeritsInRange(w: Want, m: Mode, i: nat)
    requires w.Sized() && m.Eligible() && m.Sized()
    ensures InRange(MeritsOf(w, m, i))
  {
    Areas(w, m);
    FilledBound(m.fitX * m.fitY, m.xres * m.Lines());
  }

  lemma FilledBound(fit: nat, all: nat)
    requires fit <= all && all > 0
    ensures Filled(fit, all) <= 16
  {
    QuotientBound(16 * fit + all / 2, all, 16);
  }

  /** `a` is worse than `b`: at the first difference it has less. */
  predicate Worse(a: Merits, b: Merits) {
    if a.cea != b.cea then b.cea
    else if a.upscale != b.upscale then b.upscale
    else if a.same != b.same then b.same
    else if a.scaling != b.scaling then a.scaling < b.scaling
    else if a.leftover != b.leftover then a.leftover < b.leftover
    else if a.fast != b.fast then b.fast
    else a.rate < b.rate
  }

  /** The nearer, the better, from either side. */
  lemma NearerIsBetter(n: nat, a: nat, a': nat, b: nat)
    requires b > 0 && (a <= a' <= b || b <= a' <= a)
    ensures Closeness(n, a, b) <= Closeness(n, a', b)
  {
    if a <= a' <= b {
      CloseBounds(n, a, b);
      CloseBounds(n, a', b);
      MulGrows(a, a', n);
      DivGrows(n * a, b, n * a', b);
    } else {
      DivGrows(n * b, a, n * b, a');
    }
  }

  lemma DivGrows(n: nat, d: nat, n': nat, d': nat)
    requires 0 < d' <= d && n <= n'
    ensures n / d <= n' / d'
  {
    var (q, q') := (n / d, n' / d');
    assert n == q * d + n % d && n' == q' * d' + n' % d';
    if q > q' {
      MulGrows(q' + 1, q, d');
      MulGrows(d', d, q);
    }
  }

  /** The more of the mode the picture covers, the better. */
  lemma FilledGrows(fit: nat, fit': nat, all: nat)
    requires fit <= fit' && all > 0
    ensures Filled(fit, all) <= Filled(fit', all)
  {
    DivGrows(16 * fit + all / 2, all, 16 * fit' + all / 2, all);
  }

  /** A CEA mode of exactly the size of the picture, at 60 hertz or what is meant by 59, has every merit. */
  predicate Perfect(w: Want, m: Mode) {
    && m.ratio != NoRatio && m.fitX == w.xres == m.xres && m.fitY == w.yres == m.Lines()
    && (m.refresh == 60 || m.refresh == 59)
  }

  lemma PerfectMerits(w: Want, m: Mode, i: nat)
    requires w.Sized() && m.Eligible() && m.Sized() && Perfect(w, m)
    ensures MeritsOf(w, m, i) == Merits(true, true, Preferred(w, i), 16, 16, true, 240)
  {
    Areas(w, m);
    var area := w.xres * w.yres;
    CloseBounds(16, area, area);
    QuotientBound(16 * area + area / 2, area, 16);
    FullyFilled(area);
    Percent(w.xres);
    Percent(w.yres);
  }

  lemma Percent(n: nat)
    ensures n * 99 / 100 <= n
  {
  }

  lemma FullyFilled(area: nat)
    requires area > 0
    ensures Filled(area, area) == 16
  {
    var n := 16 * area + area / 2;
    QuotientBound(n, area, 16);
    DivGrows(16 * area, area, n, area);
    QuotientBound(16 * area, area, 16);
  }

  /** Nothing beats it, unless the other is the mode to be kept. */
  lemma PerfectUnbeaten(w: Want, m: Mode, i: nat, m': Mode, k: nat)
    requires w.Sized() && m.Eligible() && m.Sized() && m'.Eligible() && m'.Sized() && Perfect(w, m)
    requires Preferred(w, k) ==> Preferred(w, i)
    ensures !Worse(MeritsOf(w, m, i), MeritsOf(w, m', k))
  {
    PerfectMerits(w, m, i);
    MeritsInRange(w, m', k);
  }

  // ----- The score -----

  /** `(score << bits) | field` for a field of that many bits. */
  function Push(score: nat, width: nat, field: nat): nat { U(score * width) + field }

  /** `Closeness` in 32 bits. */
  function Closer(n: nat, a: nat, b: nat): nat
    requires b > 0
  {
    if a > b then Div(U(n * b), a) else Div(U(n * a), b)
  }

  function Div(n: nat, d: nat): nat
    requires d > 0
  {
    n / d
  }

  /** The fields that follow the score so far; the first goes before its last bit. */
  function AddFields(score: nat, upscale: nat, scaling: nat, leftover: nat, fast: nat, rate: nat): nat {
    Push(Push(Push(Push(Push(score / 2 * 2 + upscale, 2, score % 2), 32, scaling), 32, leftover), 2, fast), 256, rate)
  }

  /** `add_scaling_score`. */
  function AddScalingScore(score: nat, xres: nat, yres: nat, refresh: nat, fitX: nat, fitY: nat,
                           modeX: nat, modeY: nat, modeRefresh: nat): nat
    requires U(xres * yres) > 0 && U(modeX * modeY) > 0 && refresh > 0
  {
    AddAreas(score, Bit(fitX >= U(xres * 99) / 100 && fitY >= U(yres * 99) / 100), U(xres * yres), U(fitX * fitY),
             U(modeX * modeY), refresh, modeRefresh)
  }

  function AddAreas(score: nat, upscale: nat, area: nat, fit: nat, all: nat, refresh: nat, modeRefresh: nat): nat
    requires area > 0 && all > 0 && refresh > 0
  {
    var hz := U(modeRefresh + Bit(modeRefresh % 6 == 5));
    AddFields(score, upscale, Closer(16, fit, area), Div(U(16 * fit + all / 2), all), Bit(hz >= refresh),
              Closer(240, hz, refresh))
  }

  /** The seven preferences side by side in one word. */
  function Pack(p: Merits): nat {
    (((((Bit(p.cea) * 2 + Bit(p.upscale)) * 2 + Bit(p.same)) * 32 + p.scaling) * 32 + p.leftover) * 2 + Bit(p.fast)) * 256
    + p.rate
  }

  lemma FieldsArePacked(p: Merits)
    requires InRange(p)
    ensures AddFields(Push(Bit(p.cea), 2, Bit(p.same)), Bit(p.upscale), p.scaling, p.leftover, Bit(p.fast), p.rate)
            == Pack(p)
  {
  }

  /** In positional notation the leading digits decide first. */
  lemma LeadingFirst(hi: nat, lo: nat, hi': nat, lo': nat, base: nat)
    requires lo < base && lo' < base
    ensures hi * base + lo < hi' * base + lo' <==> hi < hi' || (hi == hi' && lo < lo')
  {
    MulGrows(hi + 1, hi', base);
    MulGrows(hi' + 1, hi, base);
  }

  /** The first four fields. */
  function Head(p: Merits): nat { ((Bit(p.cea) * 2 + Bit(p.upscale)) * 2 + Bit(p.same)) * 32 + p.scaling }

  lemma HeadOrders(p: Merits, q: Merits)
    requires InRange(p) && InRange(q)
    ensures Head(p) == Head(q) <==>
            p.cea == q.cea && p.upscale == q.upscale && p.same == q.same && p.scaling == q.scaling
    ensures Head(p) != Head(q) ==> (Head(p) < Head(q) <==> Worse(p, q))
  {
    LeadingFirst((Bit(p.cea) * 2 + Bit(p.upscale)) * 2 + Bit(p.same), p.scaling,
                 (Bit(q.cea) * 2 + Bit(q.upscale)) * 2 + Bit(q.same), q.scaling, 32);
  }

  /** The other three. */
  function Tail(p: Merits): nat { (p.leftover * 2 + Bit(p.fast)) * 256 + p.rate }

  lemma HeadAndTail(p: Merits)
    requires InRange(p)
    ensures Pack(p) == Head(p) * 16384 + Tail(p) && Tail(p) < 16384
  {
  }

  lemma TailOrders(p: Merits, q: Merits)
    requires InRange(p) && InRange(q) && Head(p) == Head(q)
    ensures Tail(p) < Tail(q) <==> Worse(p, q)
  {
    HeadOrders(p, q);
    LeadingFirst(p.leftover * 2 + Bit(p.fast), p.rate, q.leftover * 2 + Bit(q.fast), q.rate, 256);
  }

  /** Comparing scores is comparing preferences, the most important first. */
  lemma ScoreOrders(p: Merits, q: Merits)
    requires InRange(p) && InRange(q)
    ensures Pack(p) < Pack(q) <==> Worse(p, q)
  {
    HeadAndTail(p);
    HeadAndTail(q);
    LeadingFirst(Head(p), Tail(p), Head(q), Tail(q), 16384);
    if Head(p) == Head(q) { TailOrders(p, q); } else { HeadOrders(p, q); }
  }

  /** The score of an eligible mode. */
  function Score(w: Want, m: Mode, i: nat): nat
    requires w.Sized() && m.Eligible() && m.Sized()
  {
    Areas(w, m);
    AddScalingScore(Push(Bit(m.ratio != NoRatio), 2, Bit(Preferred(w, i))),
                    w.xres, w.yres, 60, m.fitX, m.fitY, m.xres, m.Lines(), if m.refresh == 0 then 1 else m.refresh)
  }

  /** The score packs the preferences, and no mode scores zero. */
  lemma ScoreIsPacked(w: Want, m: Mode, i: nat)
    requires w.Sized() && m.Eligible() && m.Sized()
    ensures Score(w, m, i) == Pack(MeritsOf(w, m, i)) > 0
  {
    ScoreIsFields(w, m, i);
    MeritsInRange(w, m, i);
    FieldsArePacked(MeritsOf(w, m, i));
    assert Rate(m) < 60 ==> MeritsOf(w, m, i).rate == Div(240 * Rate(m), 60) > 0;
  }

  lemma ScoreIsFields(w: Want, m: Mode, i: nat)
    requires w.Sized() && m.Eligible() && m.Sized()
    ensures var p := MeritsOf(w, m, i);
            Score(w, m, i)
            == AddFields(Push(Bit(p.cea), 2, Bit(p.same)), Bit(p.upscale), p.scaling, p.leftover, Bit(p.fast), p.rate)
  {
    Areas(w, m);
    Exact(w, m);
    var hz := if m.refresh == 0 then 1 else m.refresh;
    var head, upscale := Push(Bit(m.ratio != NoRatio), 2, Bit(Preferred(w, i))), Bit(Upscales(w, m));
    assert Score(w, m, i)
        == AddAreas(head, upscale, w.xres * w.yres, m.fitX * m.fitY, m.xres * m.Lines(), 60, hz);
    AreasExact(head, upscale, w.xres * w.yres, m.fitX * m.fitY, m.xres * m.Lines(), hz);
  }

  lemma Exact(w: Want, m: Mode)
    requires w.Sized() && m.Eligible() && m.Sized()
    ensures U(w.xres * w.yres) == w.xres * w.yres && U(m.fitX * m.fitY) == m.fitX * m.fitY
    ensures U(m.xres * m.Lines()) == m.xres * m.Lines()
    ensures U(w.xres * 99) == w.xres * 99 && U(w.yres * 99) == w.yres * 99
  {
  }

  /** No step of the computation leaves 32 bits. */
  lemma AreasExact(score: nat, upscale: nat, area: nat, fit: nat, all: nat, hz: nat)
    requires 0 < area && 16 * area < U32 && fit <= all && 0 < all && 17 * all < U32 && 0 < hz <= U32 / 240
    ensures var rate := if hz % 6 == 5 then hz + 1 else hz;
            AddAreas(score, upscale, area, fit, all, 60, hz)
            == AddFields(score, upscale, Closeness(16, fit, area), Filled(fit, all), Bit(rate >= 60),
                         Closeness(240, rate, 60))
  {
    assert U(16 * fit) == 16 * fit && U(16 * area) == 16 * area && U(16 * fit + all / 2) == 16 * fit + all / 2;
  }

  // ----- The choice -----

  /** Mode `b` is the first that no other eligible mode beats. */
  ghost predicate FirstBest(w: Want, modes: seq<Mode>, b: nat)
    requires w.Sized() && forall i :: 0 <= i < |modes| && modes[i].Eligible() ==> modes[i].Sized()
  {
    && b < |modes| && modes[b].Eligible()
    && (forall i :: 0 <= i < |modes| && modes[i].Eligible() ==>
          && !Worse(MeritsOf(w, modes[b], b), MeritsOf(w, modes[i], i))
          && (i < b ==> Worse(MeritsOf(w, modes[i], i), MeritsOf(w, modes[b], b))))
  }

  /** A mode as the display driver reports it. */
  datatype Timing = Timing(xres: nat, yres: nat, interlaced: bool, otherVmode: bool, ratio: Ratio, pixclock: nat,
                           refresh: nat) {
    function Lines(): nat { if interlaced then yres / 2 else yres }

    /** No product of the computation leaves 32 bits. */
    predicate Small() { 17 * (xres * Lines()) < U32 && refresh < U32 / 240 }
  }

  /**
    What the display driver reports. `canScale` says whether the hardware can scale the wanted picture
    to a size at a pixel clock.
   */
  datatype Display = Display(xres: nat, yres: nat, width: nat, height: nat, modes: seq<Timing>, clock: nat,
                             canScale: (nat, nat, nat) -> bool)

  datatype Result = Ok | Invalid | CannotClone

  /** The physical shape a mode claims, by which pictures are fitted. */
  function Shape(d: Display, m: Timing): (nat, nat) {
    match m.ratio
    case Ratio4To3 => (4, 3)
    case Ratio16To9 => (16, 9)
    case NoRatio => (d.width, d.height)
  }

  /** The picture that a mode of the driver would show. */
  function FitOf(w: Want, d: Display, t: Timing): (nat, nat) {
    Fitted(w.xres, w.yres, w.xpy, t.xres, t.Lines(), Shape(d, t).0, Shape(d, t).1)
  }

  /** The mode with that picture, and whether it can be scaled to. */
  function Measure(w: Want, d: Display, t: Timing): Mode {
    var (fx, fy) := FitOf(w, d, t);
    Mode(t.xres, t.yres, t.interlaced, t.otherVmode, t.ratio, t.pixclock, t.refresh, fx, fy,
         t.pixclock != 0 && d.canScale(fx, fy, 1_000_000_000 / t.pixclock))
  }

  function Measured(w: Want, d: Display): (m: seq<Mode>)
    ensures |m| == |d.modes| && forall i :: 0 <= i < |m| ==> m[i] == Measure(w, d, d.modes[i])
  {
    seq(|d.modes|, i requires 0 <= i < |d.modes| => Measure(w, d, d.modes[i]))
  }

  lemma TrimmedInside(xf: real, yf: real, scrX: nat, scrY: nat)
    requires xf >= 0.0 && yf >= 0.0
    ensures Trimmed(xf, yf, scrX, scrY).0 <= scrX && Trimmed(xf, yf, scrX, scrY).1 <= scrY
  {
    if xf < yf * (1.0 - TOLERANCE) {
      ShareBounds(xf, yf, scrX);
    } else if xf * (1.0 - TOLERANCE) > yf {
      ShareBounds(yf, xf, scrY);
    }
  }

  /** A fitted picture is no larger than its mode. */
  lemma MeasuredSized(w: Want, d: Display, t: Timing)
    requires t.Small()
    ensures Measure(w, d, t).Sized()
  {
    var (sw, sh) := Measures(t.xres, t.Lines(), Shape(d, t).0, Shape(d, t).1);
    var (fx, fy) := FitOf(w, d, t);
    TrimmedInside(Factor(w.xres as real, w.xpy, sh as real), Factor(w.yres as real, 1.0, sw as real),
                  t.xres, t.Lines());
    MulGrows(fx, t.xres, fy);
    MulGrows(fy, t.Lines(), t.xres);
  }

  /** The picture is `a` wide when it is `b` high. */
  predicate HasShape(w: Want, a: nat, b: nat) { w.xres as real * w.xpy * b as real == w.yres as real * a as real }

  lemma ShapeFactors(w: Want, a: nat, b: nat)
    requires HasShape(w, a, b)
    ensures Factor(w.xres as real, w.xpy, b as real) == Factor(w.yres as real, 1.0, a as real)
  {
  }

  /** A picture of the shape that the mode claims, or else that of the display, fills the mode. */
  lemma ShapeFills(w: Want, d: Display, t: Timing)
    requires t.ratio == Ratio4To3 ==> HasShape(w, 4, 3)
    requires t.ratio == Ratio16To9 ==> HasShape(w, 16, 9)
    requires t.ratio == NoRatio ==>
               if d.width == 0 || d.height == 0 then HasShape(w, t.xres, t.Lines()) else HasShape(w, d.width, d.height)
    ensures FitOf(w, d, t) == (t.xres, t.Lines())
  {
    var (sw, sh) := Measures(t.xres, t.Lines(), Shape(d, t).0, Shape(d, t).1);
    ShapeFactors(w, sw, sh);
    SquareFills(Factor(w.xres as real, w.xpy, sh as real), t.xres, t.Lines());
  }

  lemma SquareFills(f: real, scrX: nat, scrY: nat)
    requires f >= 0.0
    ensures Trimmed(f, f, scrX, scrY) == (scrX, scrY)
  {
  }

  /** The hardware can show the picture in mode `i`: it has a size and a clock, and nothing special about it. */
  predicate Drivable(w: Want, d: Display, i: nat)
    requires i < |d.modes|
  {
    var t := d.modes[i];
    && t.xres > 0 && t.yres > (if t.interlaced then 1 else 0) && t.pixclock > 0 && !t.otherVmode
    && d.canScale(FitOf(w, d, t).0, FitOf(w, d, t).1, 1_000_000_000 / t.pixclock)
  }

  lemma EligibleDrivable(w: Want, d: Display, i: nat)
    requires i < |d.modes|
    ensures Measured(w, d)[i].Eligible() <==> Drivable(w, d, i)
  {
  }

  /** Without an eligible mode: the size that the display has now. */
  predicate AsItIs(w: Want, d: Display) {
    var (fx, fy) := Fitted(w.xres, w.yres, w.xpy, d.xres, d.yres, d.width, d.height);
    d.clock != 0 && d.canScale(fx, fy, d.clock)
  }

  class External {
    var xres: nat
    var yres: nat
    var width: nat
    var height: nat
    var lastMode: int
    var lastXres: nat
    var lastYres: nat
    var lastXpy: PixelShape
    /** The mode that the driver was told to switch to, if any. */
    ghost var switched: seq<nat>

    constructor ()
    {
      xres, yres, width, height, lastMode, lastXres, lastYres, lastXpy, switched := 0, 0, 0, 0, 0, 0, 0, 0.0, [];
    }

    /** The external display takes the size of mode `best`, or else its own. */
    ghost predicate Shows(d: Display, best: int)
      requires -1 <= best < |d.modes|
      reads this
    {
      if best == -1 then (xres, yres, width, height) == (d.xres, d.yres, d.width, d.height)
      else (xres, yres) == (d.modes[best].xres, d.modes[best].Lines()) && (width, height) == Shape(d, d.modes[best])
    }

    /** The loop over the modes. */
    method PickMode(w: Want, d: Display) returns (best: int)
      requires w.Sized() && forall i :: 0 <= i < |d.modes| ==> d.modes[i].Small()
      modifies `xres, `yres, `width, `height
      ensures -1 <= best < |d.modes| && Shows(d, best)
      ensures if best == -1 then !SomeDrivable(w, d) else BestMode(w, d, best)
    {
      width, height, xres, yres := d.width, d.height, d.xres, d.yres;
      best := -1;
      var bestScore := 0;
      ghost var s := Scores(w, d);
      for i := 0 to |d.modes|
        invariant -1 <= best < i && Shows(d, best)
        invariant Leads(s, best, i) && bestScore == if best < 0 then 0 else s[best]
      {
        var t := d.modes[i];
        LeadsNext(s, best, i);
        if t.xres != 0 && t.Lines() != 0 {
          var m := Measure(w, d, t);
          if m.pixclock != 0 && !m.otherVmode && m.scalable {
            MeasuredSized(w, d, t);
            var score := Score(w, m, i);
            if bestScore < score {
              width, height := Shape(d, t).0, Shape(d, t).1;
              xres, yres := t.xres, t.Lines();
              best, bestScore := i, score;
            }
          }
        }
      }
      LeaderIsBest(w, d, best);
    }

    /** `set_best_hdmi_mode`. */
    method SetBestHdmiMode(w: Want, d: Display) returns (ret: Result)
      requires w.xres > 0 && w.yres > 0 ==> w.Sized()
      requires forall i :: 0 <= i < |d.modes| ==> d.modes[i].Small()
      requires |d.modes| <= 32 && d.xres * d.yres < U32
      modifies this
      ensures ret == Invalid <==> d.xres == 0 || d.yres == 0 || w.xres == 0 || w.yres == 0
      ensures ret == Invalid ==> unchanged(this)
      ensures ret != Invalid && SomeDrivable(w, d) ==>
                && ret == Ok
                && exists b: nat ::
                  && BestMode(w, d, b) && lastMode == Not(b) && Shows(d, b)
                  && switched == old(switched) + if old(lastMode) == Not(b) then [] else [b]
      ensures ret != Invalid && !SomeDrivable(w, d) ==>
                && ret == (if AsItIs(w, d) then Ok else CannotClone)
                && Shows(d, -1)
                && lastMode == old(lastMode) && switched == old(switched)
      ensures (lastXres, lastYres, lastXpy)
              == if ret == Ok then (w.xres, w.yres, w.xpy) else old((lastXres, lastYres, lastXpy))
    {
      if IsZero(d.xres, d.yres) || IsZero(w.xres, w.yres) {
        return Invalid;
      }
      var best := PickMode(w, d);
      if best >= 0 {
        if lastMode != Not(best) {
          switched := switched + [best];
        }
        lastMode := Not(best);
      } else {
        var fit := Fitted(w.xres, w.yres, w.xpy, d.xres, d.yres, d.width, d.height);
        if d.clock == 0 || !d.canScale(fit.0, fit.1, d.clock) {
          return CannotClone;
        }
      }
      lastXres, lastYres, lastXpy := w.xres, w.yres, w.xpy;
      ret := Ok;
    }
  }

  /** Mode `b` of the driver can be driven, and is the first that no other such mode beats. */
  ghost predicate BestMode(w: Want, d: Display, b: nat)
    requires w.Sized() && forall i :: 0 <= i < |d.modes| ==> d.modes[i].Small()
  {
    AllSized(w, d);
    b < |d.modes| && Drivable(w, d, b) && FirstBest(w, Measured(w, d), b)
  }

  ghost predicate SomeDrivable(w: Want, d: Display) { exists i :: 0 <= i < |d.modes| && Drivable(w, d, i) }

  predicate IsZero(x: nat, y: nat)
    ensures IsZero(x, y) <==> x == 0 || y == 0
  {
    x * y == 0
  }

  lemma AllSized(w: Want, d: Display)
    requires forall i :: 0 <= i < |d.modes| ==> d.modes[i].Small()
    ensures forall i :: 0 <= i < |d.modes| ==> Measured(w, d)[i].Sized()
  {
    forall i | 0 <= i < |d.modes| ensures Measured(w, d)[i].Sized() {
      MeasuredSized(w, d, d.modes[i]);
    }
  }

  /** The scores of all modes, -1 where a mode is not eligible. */
  ghost function Scores(w: Want, d: Display): (s: seq<int>)
    requires w.Sized() && forall i :: 0 <= i < |d.modes| ==> d.modes[i].Small()
    ensures |s| == |d.modes|
    ensures forall i :: 0 <= i < |s| ==>
              s[i] == (AllSized(w, d); var m := Measured(w, d)[i]; if m.Eligible() then Score(w, m, i) else -1)
  {
    AllSized(w, d);
    var modes := Measured(w, d);
    seq(|modes|, i requires 0 <= i < |modes| => if modes[i].Eligible() then Score(w, modes[i], i) else -1)
  }

  /** `best` is the first highest positive score among the first `n`, or -1 if there is none. */
  ghost predicate Leads(s: seq<int>, best: int, n: nat)
    requires n <= |s|
  {
    if best < 0 then forall i :: 0 <= i < n ==> s[i] <= 0
    else best < n && s[best] > 0 && forall i :: 0 <= i < n ==> s[i] <= s[best] && (i < best ==> s[i] < s[best])
  }

  lemma LeadsNext(s: seq<int>, best: int, n: nat)
    requires n < |s| && Leads(s, best, n)
    ensures Leads(s, if s[n] > (if best < 0 then 0 else s[best]) then n else best, n + 1)
  {
  }

  lemma LeaderIsBest(w: Want, d: Display, best: int)
    requires w.Sized() && forall i :: 0 <= i < |d.modes| ==> d.modes[i].Small()
    requires Leads(Scores(w, d), best, |d.modes|)
    ensures if best < 0 then !SomeDrivable(w, d) else BestMode(w, d, best)
  {
    AllSized(w, d);
    var (s, modes) := (Scores(w, d), Measured(w, d));
    forall i | 0 <= i < |modes|
      ensures s[i] > 0 <==> modes[i].Eligible()
      ensures modes[i].Eligible() <==> Drivable(w, d, i)
      ensures best >= 0 && modes[i].Eligible() && modes[best].Eligible() ==>
                && !Worse(MeritsOf(w, modes[best], best), MeritsOf(w, modes[i], i))
                && (i < best ==> Worse(MeritsOf(w, modes[i], i), MeritsOf(w, modes[best], best)))
    {
      EligibleDrivable(w, d, i);
      if modes[i].Eligible() {
        ScoreIsPacked(w, modes[i], i);
        if best >= 0 && modes[best].Eligible() {
          ScoresCompare(w, modes[best], best, modes[i], i);
          ScoresCompare(w, modes[i], i, modes[best], best);
        }
      }
    }
  }

  /** A lower score means that the first preference on which two modes differ speaks against it. */
  lemma ScoresCompare(w: Want, m: Mode, i: nat, m': Mode, k: nat)
    requires w.Sized() && m.Eligible() && m.Sized() && m'.Eligible() && m'.Sized()
    ensures Score(w, m, i) < Score(w, m', k) <==> Worse(MeritsOf(w, m, i), MeritsOf(w, m', k))
  {
    ScoreIsPacked(w, m, i);
    ScoreIsPacked(w, m', k);
    MeritsInRange(w, m, i);
    MeritsInRange(w, m', k);
    ScoreOrders(MeritsOf(w, m, i), MeritsOf(w, m', k));
  }
}
