/** What `sobel2d` of filters/src/lib.rs computes: the optional pre-blur, the
    luma rewrite of `buf_read`, the two gradient passes and the per-sample
    gradient magnitude, as functions on the buffer contents. */
module Edges {
  import opened Samples
  import opened Weights
  import opened Convolution

  /** First sample of the pixel that holds sample `t`, in a buffer of whole
      `c`-sample pixels: the `par_chunks_mut(channels)` chunk of `t`. */
  lemma PixelBase(t: int, c: int, n: int)
    requires c > 0 && 0 <= t < n && n % c == 0
    ensures t - t % c == (t / c) * c
    ensures 0 <= t - t % c && t - t % c + c <= n
  {
    var q, nq := t / c, n / c;
    assert n == nq * c;
    if nq <= q {
      MulMonotone(nq, q, c);
      assert false;
    }
    MulMonotone(q + 1, nq, c);
  }

  /** Channel `i` of the pixel starting at `t - t % c` is sample `i` of it. */
  lemma PixelChannel(t: int, c: int, i: int)
    requires c > 0 && 0 <= t && 0 <= i < c
    ensures (t - t % c + i) % c == i
  {
    DivModUnique(t - t % c + i, c, t / c, i);
  }

  /** A buffer of a shape consists of whole pixels. */
  lemma WholePixels(s: Shape)
    requires s.channels > 0
    ensures Size(s) % s.channels == 0
  {
    DivModUnique(Size(s), s.channels, s.width * s.height, 0);
  }

  function Min3(a: int, b: int, c: int): int
  {
    if a <= b && a <= c then a else if b <= c then b else c
  }

  function Max3(a: int, b: int, c: int): int
  {
    if a >= b && a >= c then a else if b >= c then b else c
  }

  /** Luma coding of one RGB pixel: the clamped, truncated value of
      0.299 R + 0.587 G + 0.114 B. The weights sum to 1, so the luma lies
      between the darkest and the brightest channel, and a grey pixel keeps
      its value. */
  function Luma(red: U8, green: U8, blue: U8): (y: U8)
    ensures Min3(red, green, blue) <= y <= Max3(red, green, blue)
    ensures red == green == blue ==> y == red
  {
    var v := 0.299 * red as real + 0.587 * green as real + 0.114 * blue as real;
    assert Min3(red, green, blue) as real <= v <= Max3(red, green, blue) as real;
    ToU8(Weight(v))
  }

  /** The luma of the pixel holding sample `t`. */
  function PixelLuma(buf: seq<U8>, c: nat, t: int): U8
    requires c >= 3 && |buf| % c == 0 && 0 <= t < |buf|
  {
    PixelBase(t, c, |buf|);
    var base := t - t % c;
    Luma(buf[base], buf[base + 1], buf[base + 2])
  }

  /** The luma step of `sobel2d` on `buf_read`: channels 0, 1 and 2 of every
      pixel become the pixel's luma; channels from 3 on are left alone. */
  function LumaImage(buf: seq<U8>, c: nat): (r: seq<U8>)
    requires c >= 3 && |buf| % c == 0
    ensures |r| == |buf|
  {
    seq(|buf|, t requires 0 <= t < |buf| => if t % c < 3 then PixelLuma(buf, c, t) else buf[t])
  }

  /** After the luma step each pixel is grey: its first three channels agree. */
  lemma LumaImageIsGrey(buf: seq<U8>, c: nat, t: int)
    requires c >= 3 && |buf| % c == 0 && 0 <= t < |buf| && t % c < 3
    ensures 0 <= t - t % c && t - t % c + c <= |buf|
    ensures LumaImage(buf, c)[t] == LumaImage(buf, c)[t - t % c]
  {
    PixelBase(t, c, |buf|);
    PixelChannel(t, c, 0);
    var base := t - t % c;
    assert base % c == 0;
    assert base - base % c == base;
  }

  lemma LumaChannelOfBase(buf: seq<U8>, c: nat, base: int, i: int)
    requires c >= 3 && |buf| % c == 0 && 0 <= base && base + c <= |buf| && base % c == 0 && 0 <= i < 3
    ensures LumaImage(buf, c)[base + i] == LumaImage(buf, c)[base]
  {
    DivModUnique(base, c, base / c, 0);
    PixelChannel(base, c, i);
    assert (base + i) - (base + i) % c == base;
    LumaImageIsGrey(buf, c, base + i);
  }

  /** Channel `i` of the pixel starting at `base` after the luma step. */
  lemma LumaImageAt(buf: seq<U8>, c: nat, base: int, i: int)
    requires c >= 3 && |buf| % c == 0 && 0 <= base && base + c <= |buf| && base % c == 0 && 0 <= i < c
    ensures LumaImage(buf, c)[base + i] == if i < 3 then Luma(buf[base], buf[base + 1], buf[base + 2]) else buf[base + i]
  {
    DivModUnique(base, c, base / c, 0);
    PixelChannel(base, c, i);
    assert (base + i) - (base + i) % c == base;
  }

  /** The whole pixel starting at `base` after the luma step. */
  lemma LumaImagePixel(buf: seq<U8>, c: nat, base: int)
    requires c >= 3 && |buf| % c == 0 && 0 <= base && base + c <= |buf| && base % c == 0
    ensures forall t :: base <= t < base + c ==>
      LumaImage(buf, c)[t] == if t < base + 3 then Luma(buf[base], buf[base + 1], buf[base + 2]) else buf[t]
  {
    forall t | base <= t < base + c
      ensures LumaImage(buf, c)[t] == if t < base + 3 then Luma(buf[base], buf[base + 1], buf[base + 2]) else buf[t]
    {
      LumaImageAt(buf, c, base, t - base);
    }
  }

  /** One sample of the luma step applied twice. */
  lemma LumaTwiceAt(buf: seq<U8>, c: nat, t: int)
    requires c >= 3 && |buf| % c == 0 && 0 <= t < |buf|
    ensures LumaImage(LumaImage(buf, c), c)[t] == LumaImage(buf, c)[t]
  {
    var l := LumaImage(buf, c);
    if t % c < 3 {
      PixelBase(t, c, |buf|);
      var base := t - t % c;
      PixelChannel(t, c, 0);
      LumaChannelOfBase(buf, c, base, 1);
      LumaChannelOfBase(buf, c, base, 2);
      assert LumaImage(l, c)[t] == PixelLuma(l, c, t) == Luma(l[base], l[base + 1], l[base + 2]);
      LumaImageIsGrey(buf, c, t);
    }
  }

  /** The luma step is idempotent: rewriting an already grey buffer changes nothing. */
  lemma LumaImageIdempotent(buf: seq<U8>, c: nat)
    requires c >= 3 && |buf| % c == 0
    ensures LumaImage(LumaImage(buf, c), c) == LumaImage(buf, c)
  {
    forall t | 0 <= t < |buf| ensures LumaImage(LumaImage(buf, c), c)[t] == LumaImage(buf, c)[t] {
      LumaTwiceAt(buf, c, t);
    }
  }

  /** The colour a single-colour pixel takes in the luma step. */
  function LumaColor(color: seq<U8>): (r: seq<U8>)
    requires |color| >= 3
    ensures |r| == |color|
  {
    var y := Luma(color[0], color[1], color[2]);
    [y, y, y] + color[3..]
  }

  /** The luma step maps a single-colour image to a single-colour image. */
  lemma LumaOfUniform(buf: seq<U8>, s: Shape, color: seq<U8>)
    requires s.channels >= 3 && |buf| == Size(s) && UniformColor(buf, s, color)
    ensures |buf| % s.channels == 0
    ensures UniformColor(LumaImage(buf, s.channels), s, LumaColor(color))
  {
    var c := s.channels;
    WholePixels(s);
    var l := LumaImage(buf, c);
    forall t | 0 <= t < |l| ensures l[t] == LumaColor(color)[t % c] {
      if t % c < 3 {
        PixelBase(t, c, |buf|);
        var base := t - t % c;
        PixelChannel(t, c, 0);
        PixelChannel(t, c, 1);
        PixelChannel(t, c, 2);
        assert buf[base] == color[0] && buf[base + 1] == color[1] && buf[base + 2] == color[2];
      }
    }
  }

  /** A bound satisfied by `sqrt` at `v`: a non-negative square root. */
  predicate IsRootAt(sqrt: real -> real, v: real)
  {
    sqrt(v) >= 0.0 && sqrt(v) * sqrt(v) == v
  }

  /** `Weight(((gx).powi(2) + (gy).powi(2)).sqrt()).into()`. */
  function Magnitude(gx: U8, gy: U8, sqrt: real -> real): U8
  {
    ToU8(Weight(sqrt((gx * gx + gy * gy) as real)))
  }

  /** The gradient magnitude lies between the larger gradient and the sum of
      both gradients. */
  lemma MagnitudeBounds(gx: U8, gy: U8, sqrt: real -> real)
    requires IsRootAt(sqrt, (gx * gx + gy * gy) as real)
    ensures gx <= Magnitude(gx, gy, sqrt) && gy <= Magnitude(gx, gy, sqrt)
    ensures Magnitude(gx, gy, sqrt) <= gx + gy
  {
    var m := sqrt((gx * gx + gy * gy) as real);
    RootBetween(m, gx as real, gy as real);
  }

  /** A non-negative root of a^2 + b^2 lies between max(a, b) and a + b. */
  lemma RootBetween(m: real, a: real, b: real)
    requires 0.0 <= m && 0.0 <= a && 0.0 <= b && m * m == a * a + b * b
    ensures a <= m && b <= m && m <= a + b
  {
    RealMulMonotone(0.0, a, a);
    RealMulMonotone(0.0, b, b);
    RealMulMonotone(0.0, a, b);
    SquareMonotone(a, m);
    SquareMonotone(b, m);
    SumSquareBound(a, b);
    SquareMonotone(m, a + b);
  }

  /** For non-negative `a` and `b`, a^2 + b^2 <= (a + b)^2. */
  lemma SumSquareBound(a: real, b: real)
    requires 0.0 <= a * b
    ensures a * a + b * b <= (a + b) * (a + b)
  {
    assert (a + b) * (a + b) == a * a + b * b + 2.0 * (a * b);
  }

  /** Squaring is monotone on non-negative reals, and so is its inverse. */
  lemma SquareMonotone(x: real, y: real)
    requires 0.0 <= x && 0.0 <= y && x * x <= y * y
    ensures x <= y
  {
    if y < x {
      RealMulStrict(0.0, x - y, x + y);
      assert false;
    }
  }

  lemma RealMulMonotone(x: real, y: real, z: real)
    requires x <= y && 0.0 <= z
    ensures x * z <= y * z
  {
    assert y * z - x * z == (y - x) * z;
  }

  lemma RealMulStrict(x: real, y: real, z: real)
    requires x < y && 0.0 < z
    ensures x * z < y * z
  {
    assert y * z - x * z == (y - x) * z;
  }

  /** Both gradients zero give magnitude zero. */
  lemma MagnitudeOfZero(sqrt: real -> real)
    requires sqrt(0.0) == 0.0
    ensures Magnitude(0, 0, sqrt) == 0
  {
  }

  /** The last step of `sobel2d`: every sample of `buf_write` becomes the
      magnitude of itself and the matching sample of the y-gradient buffer. */
  function MagnitudeImage(gx: seq<U8>, gy: seq<U8>, sqrt: real -> real): (r: seq<U8>)
    requires |gx| == |gy|
    ensures |r| == |gx|
  {
    seq(|gx|, t requires 0 <= t < |gx| => Magnitude(gx[t], gy[t], sqrt))
  }

  /** The optional Gaussian pre-blur of `sobel2d`: `Some(sigma)` runs
      `gaussian_blur_1d` with the two kernels built for sigma. */
  datatype PreBlur = NoBlur | Blur(kx: Kernel, ky: Kernel)

  predicate PreBlurIsMatrix(pre: PreBlur)
  {
    pre.Blur? ==> IsMatrix(pre.kx) && IsMatrix(pre.ky)
  }

  /** The buffers (`buf_read`, `buf_write`) after the optional pre-blur: the
      blur and the copy of `buf_write` into `buf_read` that follows it leave
      the blurred image in both. */
  function PreBlurred(read: seq<U8>, write: seq<U8>, s: Shape, pre: PreBlur): (r: (seq<U8>, seq<U8>))
    requires |read| == Size(s) && |write| == Size(s) && PreBlurIsMatrix(pre)
    ensures |r.0| == Size(s) && |r.1| == Size(s)
    ensures pre.NoBlur? ==> r == (read, write)
    ensures pre.Blur? ==> r.0 == r.1 == SeparableBlurred(read, write, s, pre.kx, pre.ky).1
  {
    match pre
    case NoBlur => (read, write)
    case Blur(kx, ky) =>
      var blurred := SeparableBlurred(read, write, s, kx, ky).1;
      (blurred, blurred)
  }

  /** The buffers (`buf_read`, `buf_write`) after `sobel2d`: `buf_read` holds
      the luma image, `buf_write` the gradient magnitude of the x-gradient
      (written into `buf_write`) and the y-gradient (written into a copy of
      the luma image). */
  function SobelResult(read: seq<U8>, write: seq<U8>, s: Shape, pre: PreBlur,
                       kx: Kernel, ky: Kernel, sqrt: real -> real): (r: (seq<U8>, seq<U8>))
    requires s.channels >= 3 && |read| == Size(s) && |write| == Size(s)
    requires PreBlurIsMatrix(pre) && IsMatrix(kx) && IsMatrix(ky)
    ensures |r.0| == Size(s) && |r.1| == Size(s)
  {
    WholePixels(s);
    var blurred := PreBlurred(read, write, s, pre);
    var luma := LumaImage(blurred.0, s.channels);
    var gx := Convolved(luma, blurred.1, s, kx);
    var gy := Convolved(luma, luma, s, ky);
    (luma, MagnitudeImage(gx, gy, sqrt))
  }

  /** A single-colour image has no edges: with gradient kernels (weights
      summing to 0), an optional blur whose kernels sum to 1 and at most four
      channels, every magnitude `sobel2d` writes is 0. */
  lemma FlatImageHasNoEdges(read: seq<U8>, write: seq<U8>, s: Shape, pre: PreBlur,
                            kx: Kernel, ky: Kernel, sqrt: real -> real, color: seq<U8>)
    requires 3 <= s.channels <= 4 && |read| == Size(s) && |write| == Size(s)
    requires PreBlurIsMatrix(pre) && IsMatrix(kx) && IsMatrix(ky)
    requires pre.Blur? ==> KernelTotal(pre.kx) == 1.0 && KernelTotal(pre.ky) == 1.0
    requires KernelTotal(kx) == 0.0 && KernelTotal(ky) == 0.0
    requires UniformColor(read, s, color) && sqrt(0.0) == 0.0
    ensures SobelResult(read, write, s, pre, kx, ky, sqrt).1 == seq(Size(s), _ => 0)
  {
    var blurred := PreBlurred(read, write, s, pre);
    if pre.Blur? {
      SeparableBlurFixesUniform(read, write, s, pre.kx, pre.ky, color);
    }
    assert blurred.0 == read;
    LumaOfUniform(read, s, color);
    var luma := LumaImage(read, s.channels);
    GradientOfUniformIsZero(luma, blurred.1, s, kx, LumaColor(color));
    GradientOfUniformIsZero(luma, luma, s, ky, LumaColor(color));
    MagnitudeOfZero(sqrt);
    var r := SobelResult(read, write, s, pre, kx, ky, sqrt).1;
    forall t | 0 <= t < Size(s) ensures r[t] == 0 {
      assert t % s.channels < 4;
    }
  }
}
