/** Scaling of NV12 camera frames by fixed-point bilinear interpolation. */
module Resize {
  type Byte = x: int | 0 <= x < 256

  // ----- Weights -----

  /** The weights of the four neighbours A (left, top), B (right, top), D (right, bottom), C (left, bottom). */
  const B_WEIGHTS: seq<seq<seq<nat>>> := [
    [[64, 0, 0, 0], [56, 0, 0, 8], [48, 0, 0, 16], [40, 0, 0, 24],
     [32, 0, 0, 32], [24, 0, 0, 40], [16, 0, 0, 48], [8, 0, 0, 56]],
    [[56, 8, 0, 0], [49, 7, 1, 7], [42, 6, 2, 14], [35, 5, 3, 21],
     [28, 4, 4, 28], [21, 3, 5, 35], [14, 2, 6, 42], [7, 1, 7, 49]],
    [[48, 16, 0, 0], [42, 14, 2, 6], [36, 12, 4, 12], [30, 10, 6, 18],
     [24, 8, 8, 24], [18, 6, 10, 30], [12, 4, 12, 36], [6, 2, 14, 42]],
    [[40, 24, 0, 0], [35, 21, 3, 5], [30, 18, 6, 10], [25, 15, 9, 15],
     [20, 12, 12, 20], [15, 9, 15, 25], [10, 6, 18, 30], [5, 3, 21, 35]],
    [[32, 32, 0, 0], [28, 28, 4, 4], [24, 24, 8, 8], [20, 20, 12, 12],
     [16, 16, 16, 16], [12, 12, 20, 20], [8, 8, 24, 24], [4, 4, 28, 28]],
    [[24, 40, 0, 0], [21, 35, 5, 3], [18, 30, 10, 6], [15, 25, 15, 9],
     [12, 20, 20, 12], [9, 15, 25, 15], [6, 10, 30, 18], [3, 5, 35, 21]],
    [[16, 48, 0, 0], [14, 42, 6, 2], [12, 36, 12, 4], [10, 30, 18, 6],
     [8, 24, 24, 8], [6, 18, 30, 10], [4, 12, 36, 12], [2, 6, 42, 14]],
    [[8, 56, 0, 0], [7, 49, 7, 1], [6, 42, 14, 2], [5, 35, 21, 3],
     [4, 28, 28, 4], [3, 21, 35, 5], [2, 14, 42, 6], [1, 7, 49, 7]]]

  /** The table is bilinear interpolation in steps of an eighth. */
  lemma TableIsBilinear(xf: nat, yf: nat)
    requires xf < 8 && yf < 8
    ensures |B_WEIGHTS| == 8 && |B_WEIGHTS[xf]| == 8
    ensures B_WEIGHTS[xf][yf] == [(8 - xf) * (8 - yf), xf * (8 - yf), xf * yf, (8 - xf) * yf]
  {
  }

  /** Interpolation between four neighbours, `xf` eighths to the right and `yf` eighths down. */
  ghost function Mix(a: Byte, b: Byte, c: Byte, d: Byte, xf: nat, yf: nat): int
    requires xf < 8 && yf < 8
  {
    ((8 - yf) * ((8 - xf) * a + xf * b) + yf * ((8 - xf) * c + xf * d)) / 64
  }

  lemma Distribute(p: int, f: int, g: int, x: int, y: int)
    ensures p * (f * x + g * y) == f * p * x + g * p * y
  {
    assert p * (f * x + g * y) == p * (f * x) + p * (g * y);
    assert p * (f * x) == f * p * x;
    assert p * (g * y) == g * p * y;
  }

  lemma WeightedSum(a: Byte, b: Byte, c: Byte, d: Byte, xf: nat, yf: nat)
    requires xf < 8 && yf < 8
    ensures (8 - xf) * (8 - yf) * a + xf * (8 - yf) * b + (8 - xf) * yf * c + xf * yf * d
            == (8 - yf) * ((8 - xf) * a + xf * b) + yf * ((8 - xf) * c + xf * d)
  {
    Distribute(8 - yf, 8 - xf, xf, a, b);
    Distribute(yf, 8 - xf, xf, c, d);
  }

  lemma Lever(a: int, b: int, f: nat, lo: int, hi: int)
    requires f <= 8 && lo <= a <= hi && lo <= b <= hi
    ensures 8 * lo <= (8 - f) * a + f * b <= 8 * hi
  {
    assert (8 - f) * lo <= (8 - f) * a <= (8 - f) * hi;
    assert f * lo <= f * b <= f * hi;
  }

  /** The result is no darker and no lighter than the four neighbours, hence a byte. */
  lemma MixBetween(a: Byte, b: Byte, c: Byte, d: Byte, xf: nat, yf: nat, lo: int, hi: int)
    requires xf < 8 && yf < 8
    requires lo <= a <= hi && lo <= b <= hi && lo <= c <= hi && lo <= d <= hi
    ensures lo <= Mix(a, b, c, d, xf, yf) <= hi
  {
    Lever(a, b, xf, lo, hi);
    Lever(c, d, xf, lo, hi);
    Lever((8 - xf) * a + xf * b, (8 - xf) * c + xf * d, yf, 8 * lo, 8 * hi);
  }

  const U16 := 0x1_0000

  /** A 16-bit accumulator over four taps of at most 64 each never wraps around. */
  method Accumulate(a: Byte, b: Byte, c: Byte, d: Byte, w: seq<nat>) returns (accum: nat)
    requires |w| == 4 && forall k :: 0 <= k < 4 ==> w[k] <= 64
    ensures accum == w[0] * a + w[1] * b + w[3] * c + w[2] * d && accum < U16
  {
    Tap(w[0], a);
    Tap(w[1], b);
    Tap(w[3], c);
    Tap(w[2], d);
    accum := Sum(w[0] * a, w[1] * b, w[3] * c, w[2] * d);
  }

  method Sum(a: nat, b: nat, c: nat, d: nat) returns (accum: nat)
    requires a <= 64 * 255 && b <= 64 * 255 && c <= 64 * 255 && d <= 64 * 255
    ensures accum == a + b + c + d && accum < U16
  {
    accum := a % U16;
    accum := (accum + b) % U16;
    accum := (accum + c) % U16;
    accum := (accum + d) % U16;
  }

  /** The interpolated byte. */
  method MixTaps(a: Byte, b: Byte, c: Byte, d: Byte, xf: nat, yf: nat) returns (v: Byte)
    requires xf < 8 && yf < 8
    ensures v == Mix(a, b, c, d, xf, yf)
  {
    TableIsBilinear(xf, yf);
    WeightBounds(xf, yf);
    var accum := Accumulate(a, b, c, d, B_WEIGHTS[xf][yf]);
    WeightedSum(a, b, c, d, xf, yf);
    MixBetween(a, b, c, d, xf, yf, 0, 255);
    v := accum / 64 % 256;
  }

  lemma WeightBounds(xf: nat, yf: nat)
    requires xf < 8 && yf < 8
    ensures 0 <= (8 - xf) * (8 - yf) <= 64 && 0 <= xf * (8 - yf) <= 64 && 0 <= xf * yf <= 64 && 0 <= (8 - xf) * yf <= 64
    ensures (8 - xf) * (8 - yf) + xf * (8 - yf) + xf * yf + (8 - xf) * yf == 64
  {
    Lever(0, 8, xf, 0, 8);
    Lever(8 - yf, 8 - yf, xf, 0, 8);
    Lever(yf, yf, xf, 0, 8);
    assert xf * (8 - yf) >= 0 && xf * yf >= 0 && (8 - xf) * (8 - yf) >= 0 && (8 - xf) * yf >= 0;
  }

  lemma Tap(w: nat, in_: Byte)
    requires w <= 64
    ensures 0 <= w * in_ <= 64 * 255
  {
  }

  // ----- Where the taps fall -----

  /** The step through the input, in 512ths of a sample, for each sample of the output. */
  function Factor(size: nat, out: nat): nat
    requires size > 0 && out > 0
  {
    (size - 1) * 512 / out
  }

  /** The input sample left of (or above) output sample `i`, and how many eighths beyond it. */
  function Whole(i: nat, f: nat): nat { i * f / 512 }

  function Part(i: nat, f: nat): (p: nat)
    ensures p < 8
  {
    i * f / 64 % 8
  }

  lemma MulGrows(a: int, b: int, c: nat)
    requires a <= b
    ensures a * c <= b * c
  {
  }

  lemma FactorTimes(size: nat, out: nat)
    requires size > 0 && out > 0
    ensures Factor(size, out) * out <= (size - 1) * 512 < (Factor(size, out) + 1) * out
  {
    var n := (size - 1) * 512;
    assert n == n / out * out + n % out;
  }

  /** The product stays within the input's width in 512ths, so 32 bits hold it. */
  lemma StepBound(size: nat, out: nat, i: nat)
    requires size > 0 && i < out
    ensures i * Factor(size, out) <= (size - 1) * 512
    ensures Factor(size, out) > 0 ==> i * Factor(size, out) < (size - 1) * 512
  {
    var f := Factor(size, out);
    FactorTimes(size, out);
    MulGrows(i + 1, out, f);
    assert (i + 1) * f == i * f + f;
    assert out * f == f * out;
  }

  /** Every pair of taps along an axis lies in the input, at any output size, exactly if it has two samples. */
  lemma TapsInsideExactly(size: nat, out: nat)
    requires size > 0 && out > 0
    ensures (forall i :: 0 <= i < out ==> Whole(i, Factor(size, out)) + 1 < size) <==> size >= 2
  {
    if size >= 2 {
      forall i | 0 <= i < out ensures Whole(i, Factor(size, out)) + 1 < size {
        StepBound(size, out, i);
      }
    } else {
      assert Whole(0, Factor(size, out)) + 1 >= size;
    }
  }

  lemma WholeGrows(i: nat, j: nat, f: nat)
    requires i <= j
    ensures Whole(i, f) <= Whole(j, f)
  {
    assert i * f <= j * f;
  }

  /** Half-size chroma planes are stepped through with the factor of the full size. */
  predicate ChromaFits(size: nat, out: nat)
    requires size > 0 && out > 0
  {
    out < 2 || Whole(out / 2 - 1, Factor(size, out)) + 1 < size / 2
  }

  /** The last chroma tap decides whether all of them lie in the plane. */
  lemma ChromaInsideExactly(size: nat, out: nat)
    requires size > 0 && out > 0
    ensures (forall i :: 0 <= i < out / 2 ==> Whole(i, Factor(size, out)) + 1 < size / 2) <==> ChromaFits(size, out)
  {
    forall i | 0 <= i < out / 2 ensures Whole(i, Factor(size, out)) <= Whole(out / 2 - 1, Factor(size, out)) {
      WholeGrows(i, out / 2 - 1, Factor(size, out));
    }
  }

  /** Below twice the input size less one step they do; at exactly that size they do not. */
  lemma ChromaFitsBelow(size: nat, out: nat)
    requires size > 0 && size % 2 == 0 && out > 0
    ensures out < 2 * (size - 1) ==> ChromaFits(size, out)
    ensures out == 2 * (size - 1) ==> !ChromaFits(size, out)
  {
    var f := Factor(size, out);
    FactorTimes(size, out);
    if 2 <= out < 2 * (size - 1) {
      LastStep(size, out, f);
    } else if out == 2 * (size - 1) {
      Doubling(out, f);
    }
  }

  lemma Doubling(out: nat, f: nat)
    requires f * out <= 256 * out < (f + 1) * out
    ensures f == 256
  {
    if f < 256 {
      MulGrows(f + 1, 256, out);
    } else if f > 256 {
      MulGrows(257, f, out);
    }
  }

  lemma LastStep(size: nat, out: nat, f: nat)
    requires size % 2 == 0 && 2 <= out < 2 * (size - 1)
    requires f * out <= (size - 1) * 512 < (f + 1) * out
    ensures (out / 2 - 1) * f < (size / 2 - 1) * 512
  {
    var i := out / 2 - 1;
    if f <= 255 {
      MulGrows(f + 1, 256, out);
      assert false;
    }
    MulGrows(2 * i, out - 2, f);
    assert (out - 2) * f == f * out - 2 * f;
    assert 2 * i * f == 2 * (i * f);
  }

  // ----- One plane -----

  /** Samples of one channel or of a pair of channels, in rows of `stride` bytes from `base` on. */
  datatype Plane = Plane(base: nat, stride: nat, pairs: bool) {
    /** How many bytes `x` samples take, and what a byte's place says about its sample. */
    function Bytes(x: nat): nat { if pairs then 2 * x else x }
    function Channels(): nat { if pairs then 2 else 1 }
    function ChannelOf(c: nat): nat { if pairs then c % 2 else 0 }
    function SampleOf(c: nat): nat { if pairs then c / 2 else c }
  }

  function Index(p: Plane, ch: nat, x: nat, y: nat): nat { p.base + ch + y * p.stride + p.Bytes(x) }

  lemma IndexGrows(p: Plane, ch: nat, x: nat, y: nat, ch': nat, x': nat, y': nat)
    requires ch <= ch' && x <= x' && y <= y'
    ensures Index(p, ch, x, y) <= Index(p, ch', x', y')
  {
    MulGrows(y, y', p.stride);
  }

  /**
    Scaling one plane: where it is read from, the step factors, and where the `rows` times `cols`
    output samples go.
   */
  datatype Job = Job(from: Plane, fx: nat, fy: nat, at: nat, pitch: nat, rows: nat, cols: nat) {
    function Width(): nat { from.Bytes(cols) }
  }

  /** All taps are inside a source of `n` bytes. */
  ghost predicate TapsFit(j: Job, n: nat) {
    forall r, c :: 0 <= r < j.rows && 0 <= c < j.cols ==>
      Index(j.from, j.from.Channels() - 1, Whole(c, j.fx) + 1, Whole(r, j.fy) + 1) < n
  }

  ghost function Read(j: Job, src: seq<Byte>, ch: nat, x: nat, y: nat): Byte
  {
    if Index(j.from, ch, x, y) < |src| then src[Index(j.from, ch, x, y)] else 0
  }

  /** Output sample (`col`, `row`) of channel `ch`. */
  ghost function Sample(j: Job, src: seq<Byte>, ch: nat, row: nat, col: nat): int {
    var x, y := Whole(col, j.fx), Whole(row, j.fy);
    Mix(Read(j, src, ch, x, y), Read(j, src, ch, x + 1, y), Read(j, src, ch, x, y + 1), Read(j, src, ch, x + 1, y + 1),
        Part(col, j.fx), Part(row, j.fy))
  }

  // ----- What scaling does to a picture -----

  /** Whole and part together are the position in eighths of a sample. */
  lemma Eighths(i: nat, f: nat)
    ensures 8 * Whole(i, f) + Part(i, f) == i * f / 64
  {
    var p := i * f;
    assert p / 64 == p / 64 / 8 * 8 + p / 64 % 8 && p / 64 / 8 == p / 512;
  }

  /** A picture that bilinear interpolation keeps: in `unit`s of a sample, `a + b*x + c*y + e*x*y`. */
  datatype Surface = Surface(a: int, b: int, c: int, e: int) {
    function At(x: int, y: int): int { a + b * x + c * y + e * (x * y) }

    /** 64 times the value at a position in eighths of a sample. */
    function AtEighths(x: int, y: int): int { 64 * a + 8 * (b * x) + 8 * (c * y) + e * (x * y) }
  }

  /** Four taps on the surface give its value at the position between them, rounded down. */
  lemma MixSurface(s: Surface, x: nat, y: nat, xf: nat, yf: nat)
    requires xf < 8 && yf < 8
    requires 0 <= s.At(x, y) < 256 && 0 <= s.At(x + 1, y) < 256
    requires 0 <= s.At(x, y + 1) < 256 && 0 <= s.At(x + 1, y + 1) < 256
    ensures Mix(s.At(x, y), s.At(x + 1, y), s.At(x, y + 1), s.At(x + 1, y + 1), xf, yf)
            == s.AtEighths(8 * x + xf, 8 * y + yf) / 64
  {
    WeightedSurface(s, x, y, xf, yf);
  }

  lemma WeightedSurface(s: Surface, x: int, y: int, xf: int, yf: int)
    ensures (8 - yf) * ((8 - xf) * s.At(x, y) + xf * s.At(x + 1, y))
            + yf * ((8 - xf) * s.At(x, y + 1) + xf * s.At(x + 1, y + 1))
            == s.AtEighths(8 * x + xf, 8 * y + yf)
  {
    RowOfSurface(s, x, y, xf);
    RowOfSurface(s, x, y + 1, xf);
    var (v, r) := (8 * s.a + s.b * (8 * x + xf), 8 * s.c + s.e * (8 * x + xf));
    Between(v, r, y, yf);
    LineOfSurface(s, 8 * x + xf, 8 * y + yf);
  }

  lemma LineOfSurface(s: Surface, x: int, y: int)
    ensures s.AtEighths(x, y) == 8 * (8 * s.a + s.b * x) + (8 * s.c + s.e * x) * y
  {
    assert (8 * s.c + s.e * x) * y == 8 * (s.c * y) + s.e * (x * y);
  }

  /** Along a row the surface is a straight line. */
  lemma RowOfSurface(s: Surface, x: int, y: int, xf: int)
    ensures (8 - xf) * s.At(x, y) + xf * s.At(x + 1, y)
            == 8 * s.a + s.b * (8 * x + xf) + (8 * s.c + s.e * (8 * x + xf)) * y
  {
    Between(s.a + s.c * y, s.b + s.e * y, x, xf);
    assert s.e * (x * y) == s.e * y * x && s.e * ((x + 1) * y) == s.e * y * (x + 1);
    assert (s.b + s.e * y) * (8 * x + xf) == s.b * (8 * x + xf) + s.e * (8 * x + xf) * y;
    assert (s.b + s.e * y) * x == s.b * x + s.e * y * x;
    assert (s.b + s.e * y) * (x + 1) == s.b * (x + 1) + s.e * y * (x + 1);
  }

  lemma Between(v: int, r: int, x: int, f: int)
    ensures (8 - f) * (v + r * x) + f * (v + r * (x + 1)) == 8 * v + r * (8 * x + f)
  {
    assert f * (v + r * (x + 1)) == f * (v + r * x) + f * r;
    assert r * (8 * x + f) == 8 * (r * x) + f * r;
  }

  /** The channel shows the surface on the four taps of an output sample. */
  ghost predicate ShowsAtTaps(j: Job, src: seq<Byte>, ch: nat, row: nat, col: nat, s: Surface) {
    var (x, y) := (Whole(col, j.fx), Whole(row, j.fy));
    && Read(j, src, ch, x, y) == s.At(x, y) && Read(j, src, ch, x + 1, y) == s.At(x + 1, y)
    && Read(j, src, ch, x, y + 1) == s.At(x, y + 1) && Read(j, src, ch, x + 1, y + 1) == s.At(x + 1, y + 1)
  }

  /** The output is the surface at its position, rounded down. */
  lemma SurfaceSample(j: Job, src: seq<Byte>, ch: nat, row: nat, col: nat, s: Surface)
    requires ShowsAtTaps(j, src, ch, row, col, s)
    ensures Sample(j, src, ch, row, col) == s.AtEighths(col * j.fx / 64, row * j.fy / 64) / 64
  {
    MixSurface(s, Whole(col, j.fx), Whole(row, j.fy), Part(col, j.fx), Part(row, j.fy));
    Eighths(col, j.fx);
    Eighths(row, j.fy);
  }

  /** The output rows do not overlap. */
  predicate Spaced(j: Job) { j.Width() <= j.pitch }

  /** Where output row `row` begins. */
  function RowStart(j: Job, row: nat): nat { if row == 0 then j.at else RowStart(j, row - 1) + j.pitch }

  lemma {:induction false} RowStartIs(j: Job, row: nat)
    ensures RowStart(j, row) == j.at + row * j.pitch
  {
    if row > 0 {
      RowStartIs(j, row - 1);
      assert row * j.pitch == (row - 1) * j.pitch + j.pitch;
    }
  }

  /** What byte `k` of the output holds after scaling: a sample, or what was there before. */
  ghost function Expected(j: Job, src: seq<Byte>, was: seq<Byte>, k: nat): int
    requires Spaced(j) && k < |was|
  {
    if j.cols == 0 || k < j.at then was[k]
    else
      var r, c := (k - j.at) / j.pitch, (k - j.at) % j.pitch;
      if r < j.rows && c < j.Width() then Sample(j, src, j.from.ChannelOf(c), r, j.from.SampleOf(c)) else was[k]
  }

  /** The whole output as it should be. */
  ghost function Goal(j: Job, src: seq<Byte>, was: seq<Byte>): (g: seq<int>)
    requires Spaced(j)
    ensures |g| == |was|
  {
    seq(|was|, k requires 0 <= k < |was| => Expected(j, src, was, k))
  }

  /** The output below byte `k` has reached its goal, the rest is untouched. */
  ghost predicate Done(goal: seq<int>, was: seq<Byte>, now: seq<Byte>, k: int) {
    |goal| == |now| == |was| && forall i :: 0 <= i < |was| ==> now[i] as int == if i < k then goal[i] else was[i]
  }

  /** One more byte is finished, or left alone on purpose. */
  lemma DoneNext(goal: seq<int>, was: seq<Byte>, now: seq<Byte>, k: nat, v: Byte)
    requires Done(goal, was, now, k) && k < |goal| && v == goal[k]
    ensures Done(goal, was, now[k := v], k + 1)
  {
  }

  lemma DivMod(q: nat, r: nat, d: nat)
    requires r < d
    ensures (q * d + r) / d == q && (q * d + r) % d == r
  {
    var n := q * d + r;
    var q', r' := n / d, n % d;
    assert n == q' * d + r';
    if q' < q {
      MulGrows(q' + 1, q, d);
    } else if q' > q {
      MulGrows(q + 1, q', d);
    }
  }

  lemma ExpectedAt(j: Job, src: seq<Byte>, was: seq<Byte>, row: nat, c: nat)
    requires Spaced(j) && j.cols > 0 && row < j.rows && c < j.pitch && RowStart(j, row) + c < |was|
    ensures Expected(j, src, was, RowStart(j, row) + c)
            == if c < j.Width() then Sample(j, src, j.from.ChannelOf(c), row, j.from.SampleOf(c))
               else was[RowStart(j, row) + c]
  {
    RowStartIs(j, row);
    DivMod(row, c, j.pitch);
  }

  /** Between two rows nothing changes. */
  lemma DoneRow(j: Job, src: seq<Byte>, was: seq<Byte>, now: seq<Byte>, row: nat)
    requires Spaced(j) && row < j.rows && Done(Goal(j, src, was), was, now, RowStart(j, row) + j.Width())
    ensures Done(Goal(j, src, was), was, now, RowStart(j, row + 1))
  {
    forall i | RowStart(j, row) + j.Width() <= i < RowStart(j, row + 1) && i < |was|
      ensures Expected(j, src, was, i) == was[i]
    {
      if j.cols > 0 {
        ExpectedAt(j, src, was, row, i - RowStart(j, row));
      }
    }
  }

  lemma BeyondRows(q: nat, rows: nat, pitch: nat)
    requires pitch > 0 && q >= rows * pitch
    ensures q / pitch >= rows
  {
    var r := q / pitch;
    assert q == r * pitch + q % pitch;
    if r < rows {
      MulGrows(r + 1, rows, pitch);
    }
  }

  lemma DoneAll(j: Job, src: seq<Byte>, was: seq<Byte>, now: seq<Byte>)
    requires Spaced(j) && Done(Goal(j, src, was), was, now, RowStart(j, j.rows))
    ensures forall i :: 0 <= i < |was| ==> now[i] as int == Expected(j, src, was, i)
  {
    RowStartIs(j, j.rows);
    forall i | RowStart(j, j.rows) <= i < |was| ensures Expected(j, src, was, i) == was[i] {
      if j.cols > 0 {
        BeyondRows(i - j.at, j.rows, j.pitch);
      }
    }
  }

  const U32 := 0x1_0000_0000

  /** Steps that 16 bits of whole samples can count. */
  predicate Narrow(n: nat, f: nat) { n < U16 && (n > 0 ==> (n - 1) * f < U16 * 512) }

  /** The whole and the fractional part of a product, in the widths they are computed in. */
  method Shift(p: nat) returns (whole: nat, part: nat)
    requires p < U16 * 512
    ensures whole == p / 512 && part == p / 64 % 8
  {
    var q := p % U32;
    assert q == p;
    whole := q / 512;
    whole := whole % U16;
    part := q / 64 % 8;
  }

  method Split(i: nat, n: nat, f: nat) returns (whole: nat, part: nat)
    requires i < n && Narrow(n, f)
    ensures whole == Whole(i, f) && part == Part(i, f)
  {
    MulGrows(i, n - 1, f);
    whole, part := Shift(i * f);
  }

  /** The output of the job lies within `n` bytes. */
  predicate RoomFor(j: Job, n: nat) { j.rows > 0 && j.cols > 0 ==> RowStart(j, j.rows - 1) + j.Width() <= n }

  ghost predicate Ready(j: Job, src: array<Byte>, dst: array<Byte>) {
    && src != dst && Spaced(j) && Narrow(j.rows, j.fy) && Narrow(j.cols, j.fx)
    && TapsFit(j, src.Length) && RoomFor(j, dst.Length)
  }

  /** The bytes of one output sample. */
  method Interpolate(j: Job, src: array<Byte>, ch: nat, row: nat, col: nat, y: nat, yf: nat) returns (v: Byte)
    requires TapsFit(j, src.Length) && Narrow(j.cols, j.fx)
    requires row < j.rows && col < j.cols && ch < j.from.Channels()
    requires y == Whole(row, j.fy) && yf == Part(row, j.fy)
    ensures v == Sample(j, src[..], ch, row, col)
  {
    var x, xf := Split(col, j.cols, j.fx);
    var last := j.from.Channels() - 1;
    IndexGrows(j.from, ch, x, y, last, x + 1, y + 1);
    IndexGrows(j.from, ch, x + 1, y, last, x + 1, y + 1);
    IndexGrows(j.from, ch, x, y + 1, last, x + 1, y + 1);
    IndexGrows(j.from, ch, x + 1, y + 1, last, x + 1, y + 1);
    v := MixTaps(src[Index(j.from, ch, x, y)], src[Index(j.from, ch, x + 1, y)],
                 src[Index(j.from, ch, x, y + 1)], src[Index(j.from, ch, x + 1, y + 1)], xf, yf);
  }

  /** The goal at byte `c` of a row. */
  lemma GoalAt(j: Job, src: seq<Byte>, was: seq<Byte>, row: nat, c: nat)
    requires Spaced(j) && row < j.rows && c < j.Width() && RowStart(j, row) + c < |was|
    ensures Goal(j, src, was)[RowStart(j, row) + c] == Sample(j, src, j.from.ChannelOf(c), row, j.from.SampleOf(c))
  {
    ExpectedAt(j, src, was, row, c);
  }

  /** Row `row` ends inside the output. */
  lemma {:induction false} RowFits(j: Job, n: nat, row: nat, last: nat)
    requires row <= last && RowStart(j, last) + j.Width() <= n
    ensures RowStart(j, row) + j.Width() <= n
    decreases last
  {
    if row < last {
      RowFits(j, n, row, last - 1);
    }
  }

  /** The inner loop over a luma row; `start` is where the row begins. */
  method LumaRow(j: Job, src: array<Byte>, dst: array<Byte>, row: nat, start: nat,
                 ghost was: seq<Byte>, ghost goal: seq<int>)
    returns (at: nat)
    requires Ready(j, src, dst) && !j.from.pairs && row < j.rows && start == RowStart(j, row)
    requires Done(goal, was, dst[..], start) && goal == Goal(j, src[..], was)
    modifies dst
    ensures at == start + j.Width() && Done(goal, was, dst[..], at)
  {
    var y, yf := Split(row, j.rows, j.fy);
    var col := 0;
    at := start;
    while col < j.cols
      invariant col <= j.cols && at == start + col
      invariant Done(goal, was, dst[..], at)
    {
      RowFits(j, dst.Length, row, j.rows - 1);
      var v := Interpolate(j, src, 0, row, col, y, yf);
      GoalAt(j, src[..], was, row, col);
      DoneNext(goal, was, dst[..], at, v);
      Store(dst, at, v);
      at := at + 1;
      col := (col + 1) % U16;
    }
  }

  /** Writing through the output pointer. */
  method Store(dst: array<Byte>, at: nat, v: Byte)
    requires at < dst.Length
    modifies dst
    ensures dst[..] == old(dst[..])[at := v]
  {
    dst[at] := v;
  }

  /** The loop over the luma plane. */
  method ResizeLuma(j: Job, src: array<Byte>, dst: array<Byte>)
    requires Ready(j, src, dst) && !j.from.pairs
    modifies dst
    ensures forall k :: 0 <= k < dst.Length ==> dst[k] as int == Expected(j, src[..], old(dst[..]), k)
  {
    ghost var was := dst[..];
    ghost var goal := Goal(j, src[..], was);
    var at, row := j.at, 0;
    while row < j.rows
      invariant row <= j.rows && at == RowStart(j, row)
      invariant Done(goal, was, dst[..], at)
    {
      at := LumaRow(j, src, dst, row, at, was, goal);
      DoneRow(j, src[..], was, dst[..], row);
      at := at + (j.pitch - j.Width());
      row := (row + 1) % U16;
    }
    DoneAll(j, src[..], was, dst[..]);
  }

  /** The Cb or the Cr byte of a sample. */
  method ChromaByte(j: Job, src: array<Byte>, ch: nat, row: nat, col: nat, y: nat, yf: nat, ghost was: seq<Byte>)
    returns (v: Byte)
    requires TapsFit(j, src.Length) && Narrow(j.cols, j.fx) && Spaced(j) && j.from.pairs
    requires row < j.rows && col < j.cols && ch < 2 && RowStart(j, row) + 2 * col + ch < |was|
    requires y == Whole(row, j.fy) && yf == Part(row, j.fy)
    ensures v == Goal(j, src[..], was)[RowStart(j, row) + 2 * col + ch]
  {
    v := Interpolate(j, src, ch, row, col, y, yf);
    GoalAt(j, src[..], was, row, 2 * col + ch);
  }

  /** One Cb and one Cr sample. */
  method ChromaSample(j: Job, src: array<Byte>, dst: array<Byte>, row: nat, col: nat, at: nat, y: nat, yf: nat,
                      ghost was: seq<Byte>, ghost goal: seq<int>)
    requires Ready(j, src, dst) && j.from.pairs && row < j.rows && col < j.cols
    requires y == Whole(row, j.fy) && yf == Part(row, j.fy)
    requires at == RowStart(j, row) + 2 * col && Done(goal, was, dst[..], at) && goal == Goal(j, src[..], was)
    modifies dst
    ensures Done(goal, was, dst[..], at + 2)
  {
    RowFits(j, dst.Length, row, j.rows - 1);
    var cb := ChromaByte(j, src, 0, row, col, y, yf, was);
    var cr := ChromaByte(j, src, 1, row, col, y, yf, was);
    DoneNext(goal, was, dst[..], at, cb);
    Store(dst, at, cb);
    DoneNext(goal, was, dst[..], at + 1, cr);
    Store(dst, at + 1, cr);
  }

  /** The inner loop over a row of interleaved Cb and Cr samples. */
  method ChromaRow(j: Job, src: array<Byte>, dst: array<Byte>, row: nat, start: nat,
                 ghost was: seq<Byte>, ghost goal: seq<int>)
    returns (at: nat)
    requires Ready(j, src, dst) && j.from.pairs && row < j.rows && start == RowStart(j, row)
    requires Done(goal, was, dst[..], start) && goal == Goal(j, src[..], was)
    modifies dst
    ensures at == start + j.Width() && Done(goal, was, dst[..], at)
  {
    var y, yf := Split(row, j.rows, j.fy);
    var col := 0;
    at := start;
    while col < j.cols
      invariant col <= j.cols && at == start + 2 * col
      invariant Done(goal, was, dst[..], at)
    {
      ChromaSample(j, src, dst, row, col, at, y, yf, was, goal);
      at := at + 2;
      col := (col + 1) % U16;
    }
  }

  /** The loop over the chroma plane. */
  method ResizeChroma(j: Job, src: array<Byte>, dst: array<Byte>)
    requires Ready(j, src, dst) && j.from.pairs
    modifies dst
    ensures forall k :: 0 <= k < dst.Length ==> dst[k] as int == Expected(j, src[..], old(dst[..]), k)
  {
    ghost var was := dst[..];
    ghost var goal := Goal(j, src[..], was);
    var at, row := j.at, 0;
    while row < j.rows
      invariant row <= j.rows && at == RowStart(j, row)
      invariant Done(goal, was, dst[..], at)
    {
      at := ChromaRow(j, src, dst, row, at, was, goal);
      DoneRow(j, src[..], was, dst[..], row);
      at := at + (j.pitch - j.Width());
      row := (row + 1) % U16;
    }
    DoneAll(j, src[..], was, dst[..]);
  }

  // ----- A frame -----

  datatype Format = YCbCr420Lp | OtherFormat

  /** An image: the luma pointer may be missing, the chroma pointer is taken on trust. */
  datatype Image = Image(width: int, height: int, stride: int, format: Format,
                         luma: array?<Byte>, chroma: array<Byte>, offset: nat)

  datatype Window = Window(x: nat, y: nat, width: nat, height: nat)

  /** The part of the output to fill: all of it, unless a crop is given. */
  datatype Crop = NoCrop | CropTo(window: Window)

  ghost predicate Accepts(i: Image, o: Image) {
    && i.luma != null && o.luma != null
    && i.width % U16 >= 1 && i.height % U16 >= 1 && i.stride >= 1
    && i.format == YCbCr420Lp && o.format == YCbCr420Lp
  }

  function Target(o: Image, crop: Crop): Window
    requires o.width >= 0 && o.height >= 0
  {
    if crop.NoCrop? then Window(0, 0, o.width, o.height) else crop.window
  }

  function LumaJob(i: Image, o: Image, w: Window): Job
    requires i.width % U16 >= 1 && i.height % U16 >= 1 && i.stride >= 0 && o.width >= 0 && o.stride >= w.width
    requires w.width > 0 && w.height > 0
  {
    Job(Plane(i.offset, i.stride, false), Factor(i.width % U16, w.width), Factor(i.height % U16, w.height),
        w.x + w.y * o.width, o.stride, w.height, w.width)
  }

  /** A chroma row advances by two bytes a sample and then by what is left of a luma row. */
  function ChromaJob(i: Image, o: Image, w: Window): (j: Job)
    requires i.width % U16 >= 1 && i.height % U16 >= 1 && i.stride >= 0 && o.width >= 0 && o.stride >= w.width
    requires w.width > 0 && w.height > 0
  {
    Job(Plane(i.offset / 2, i.stride, true), Factor(i.width % U16, w.width), Factor(i.height % U16, w.height),
        w.x + w.y * o.width, w.width / 2 * 2 + (o.stride - w.width), w.height / 2, w.width / 2)
  }

  /** The chroma rows keep to the output's stride exactly if the width is even. */
  lemma ChromaPitchExactly(i: Image, o: Image, w: Window)
    requires i.width % U16 >= 1 && i.height % U16 >= 1 && i.stride >= 0 && o.width >= 0 && o.stride >= w.width
    requires w.width > 0 && w.height > 0
    ensures ChromaJob(i, o, w).pitch == LumaJob(i, o, w).pitch <==> w.width % 2 == 0
  {
  }

  /** The input memory holds the luma rows, and the chroma rows at half size. */
  ghost predicate Holds(i: Image, width: nat, height: nat) {
    && i.luma != null && i.stride >= 0
    && (width > 0 && height > 0 ==> i.offset + (height - 1) * i.stride + width <= i.luma.Length)
    && (width >= 2 && height >= 2 ==>
          i.offset / 2 + (height / 2 - 1) * i.stride + width / 2 * 2 <= i.chroma.Length)
  }

  lemma TapsHeld(p: Plane, fx: nat, fy: nat, j: Job, width: nat, height: nat, n: nat)
    requires j.from == p && j.fx == fx && j.fy == fy
    requires width > 0 && height > 0 ==> p.base + (height - 1) * p.stride + p.Bytes(width) <= n
    requires forall c :: 0 <= c < j.cols ==> Whole(c, fx) + 1 < width
    requires forall r :: 0 <= r < j.rows ==> Whole(r, fy) + 1 < height
    ensures TapsFit(j, n)
  {
    forall r, c | 0 <= r < j.rows && 0 <= c < j.cols
      ensures Index(p, p.Channels() - 1, Whole(c, fx) + 1, Whole(r, fy) + 1) < n
    {
      var last := p.Channels() - 1;
      IndexGrows(p, last, Whole(c, fx) + 1, Whole(r, fy) + 1, last, width - 1, height - 1);
    }
  }

  lemma FactorNarrow(size: nat, out: nat, n: nat)
    requires 0 < size < U16 && 0 < out < U16 && n <= out
    ensures Narrow(n, Factor(size, out))
  {
    if n > 0 {
      StepBound(size, out, n - 1);
    }
  }

  /**
    What a caller has to provide for a window to be filled: at least two samples each way, chroma
    planes that are not overrun, memory that holds them, and an output that has room.
   */
  ghost predicate Supplied(i: Image, o: Image, w: Window) {
    && 0 < w.width < U16 && 0 < w.height < U16 && o.width >= 0 && o.height >= 0 && o.stride >= w.width
    && (Accepts(i, o) ==>
          && i.width % U16 >= 2 && i.height % U16 >= 2 && Holds(i, i.width % U16, i.height % U16)
          && ChromaFits(i.width % U16, w.width) && ChromaFits(i.height % U16, w.height)
          && RoomFor(LumaJob(i, o, w), o.luma.Length) && RoomFor(ChromaJob(i, o, w), o.chroma.Length)
          && {i.luma, i.chroma} !! {o.luma, o.chroma} && o.luma != o.chroma)
  }

  lemma JobsReady(i: Image, o: Image, w: Window)
    requires Accepts(i, o) && Supplied(i, o, w)
    ensures Ready(LumaJob(i, o, w), i.luma, o.luma) && Ready(ChromaJob(i, o, w), i.chroma, o.chroma)
  {
    var width, height := i.width % U16, i.height % U16;
    var l, c := LumaJob(i, o, w), ChromaJob(i, o, w);
    TapsInsideExactly(width, w.width);
    TapsInsideExactly(height, w.height);
    TapsHeld(l.from, l.fx, l.fy, l, width, height, i.luma.Length);
    ChromaInsideExactly(width, w.width);
    ChromaInsideExactly(height, w.height);
    TapsHeld(c.from, c.fx, c.fy, c, width / 2, height / 2, i.chroma.Length);
    FactorNarrow(width, w.width, l.cols);
    FactorNarrow(height, w.height, l.rows);
    FactorNarrow(width, w.width, c.cols);
    FactorNarrow(height, w.height, c.rows);
  }

  /** A channel, every `step` bytes in rows of `stride`, shows the surface. */
  ghost predicate Pictured(src: seq<Byte>, base: nat, stride: nat, step: nat, width: nat, height: nat, s: Surface) {
    forall x: nat, y: nat :: x < width && y < height ==>
      base + y * stride + step * x < |src| && src[base + y * stride + step * x] == s.At(x, y)
  }

  /** The position of output sample `k`, in eighths of an input sample. */
  function Position(k: nat, size: nat, out: nat): nat
    requires size > 0 && out > 0
  {
    k * ((size - 1) * 512 / out) / 64
  }

  lemma TapsShow(j: Job, src: seq<Byte>, ch: nat, row: nat, col: nat, width: nat, height: nat, s: Surface)
    requires Pictured(src, j.from.base + ch, j.from.stride, j.from.Bytes(1), width, height, s)
    requires Whole(col, j.fx) + 1 < width && Whole(row, j.fy) + 1 < height
    ensures ShowsAtTaps(j, src, ch, row, col, s)
  {
    forall x: nat, y: nat | x < width && y < height ensures Read(j, src, ch, x, y) == s.At(x, y) {
      assert Index(j.from, ch, x, y) == j.from.base + ch + y * j.from.stride + j.from.Bytes(1) * x;
    }
  }

  /**
    Main result: a luma plane that shows a surface still shows it after scaling, at every sample of
    the window.
   */
  lemma LumaKept(i: Image, o: Image, w: Window, src: seq<Byte>, was: seq<Byte>, s: Surface, x: nat, y: nat)
    requires Accepts(i, o) && Supplied(i, o, w) && x < w.width && y < w.height
    requires Pictured(src, i.offset, i.stride, 1, i.width % U16, i.height % U16, s)
    requires w.x + w.y * o.width + y * o.stride + x < |was|
    ensures Expected(LumaJob(i, o, w), src, was, w.x + w.y * o.width + y * o.stride + x)
            == s.AtEighths(Position(x, i.width % U16, w.width), Position(y, i.height % U16, w.height)) / 64
  {
    var j := LumaJob(i, o, w);
    TapsInsideExactly(i.width % U16, w.width);
    TapsInsideExactly(i.height % U16, w.height);
    RowStartIs(j, y);
    SampleKept(j, src, was, 0, y, x, i.width % U16, i.height % U16, s, w.x + w.y * o.width + y * o.stride + x);
  }

  lemma SampleKept(j: Job, src: seq<Byte>, was: seq<Byte>, ch: nat, row: nat, col: nat, width: nat, height: nat,
                   s: Surface, k: nat)
    requires Pictured(src, j.from.base + ch, j.from.stride, j.from.Bytes(1), width, height, s)
    requires Whole(col, j.fx) + 1 < width && Whole(row, j.fy) + 1 < height && ch < j.from.Channels()
    requires Spaced(j) && row < j.rows && col < j.cols && k == RowStart(j, row) + j.from.Bytes(col) + ch < |was|
    ensures Expected(j, src, was, k) == s.AtEighths(col * j.fx / 64, row * j.fy / 64) / 64
  {
    TapsShow(j, src, ch, row, col, width, height, s);
    SurfaceSample(j, src, ch, row, col, s);
    SampleExpected(j, src, was, ch, row, col, k);
  }

  lemma SampleExpected(j: Job, src: seq<Byte>, was: seq<Byte>, ch: nat, row: nat, col: nat, k: nat)
    requires Spaced(j) && row < j.rows && col < j.cols && ch < j.from.Channels()
    requires k == RowStart(j, row) + j.from.Bytes(col) + ch < |was|
    ensures Expected(j, src, was, k) == Sample(j, src, ch, row, col)
  {
    var c := j.from.Bytes(col) + ch;
    assert j.from.ChannelOf(c) == ch && j.from.SampleOf(c) == col && c < j.Width();
    ExpectedAt(j, src, was, row, c);
  }

  /** Where the chroma bytes of an output sample are. */
  function ChromaAt(o: Image, w: Window, ch: nat, x: nat, y: nat): int {
    w.x + w.y * o.width + y * (w.width / 2 * 2 + (o.stride - w.width)) + 2 * x + ch
  }

  /** And so do Cb (channel 0) and Cr (channel 1), each its own surface. */
  lemma ChromaKept(i: Image, o: Image, w: Window, src: seq<Byte>, was: seq<Byte>, ch: nat, s: Surface, x: nat, y: nat)
    requires Accepts(i, o) && Supplied(i, o, w) && ch < 2 && x < w.width / 2 && y < w.height / 2
    requires Pictured(src, i.offset / 2 + ch, i.stride, 2, i.width % U16 / 2, i.height % U16 / 2, s)
    requires 0 <= ChromaAt(o, w, ch, x, y) < |was|
    ensures Expected(ChromaJob(i, o, w), src, was, ChromaAt(o, w, ch, x, y))
            == s.AtEighths(Position(x, i.width % U16, w.width), Position(y, i.height % U16, w.height)) / 64
  {
    var j := ChromaJob(i, o, w);
    ChromaInsideExactly(i.width % U16, w.width);
    ChromaInsideExactly(i.height % U16, w.height);
    RowStartIs(j, y);
    SampleKept(j, src, was, ch, y, x, i.width % U16 / 2, i.height % U16 / 2, s, ChromaAt(o, w, ch, x, y));
  }

  /** `VT_resizeFrame_Video_opt2_lp`. */
  method ResizeFrame(i: Image, o: Image, crop: Crop) returns (ok: bool)
    requires o.width >= 0 && o.height >= 0 && Supplied(i, o, Target(o, crop))
    modifies o.luma, o.chroma
    ensures ok <==> Accepts(i, o)
    ensures !ok && o.luma != null ==> o.luma[..] == old(o.luma[..])
    ensures !ok ==> o.chroma[..] == old(o.chroma[..])
    ensures ok ==>
              && (forall k :: 0 <= k < o.luma.Length ==>
                    o.luma[k] as int
                    == Expected(LumaJob(i, o, Target(o, crop)), old(i.luma[..]), old(o.luma[..]), k))
              && (forall k :: 0 <= k < o.chroma.Length ==>
                    o.chroma[k] as int
                    == Expected(ChromaJob(i, o, Target(o, crop)), old(i.chroma[..]), old(o.chroma[..]), k))
  {
    if i.luma == null || o.luma == null {
      return false;
    }
    var w := Target(o, crop);
    if i.width % U16 < 1 || i.height % U16 < 1 || i.stride < 1 {
      return false;
    }
    if i.format != YCbCr420Lp || o.format != YCbCr420Lp {
      return false;
    }
    JobsReady(i, o, w);
    ResizeLuma(LumaJob(i, o, w), i.luma, o.luma);
    ResizeChroma(ChromaJob(i, o, w), i.chroma, o.chroma);
    ok := true;
  }
}
