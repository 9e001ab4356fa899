/** What `convolve` of filters/src/lib.rs computes, as functions on the
    buffer contents, and what the pipelines built from it compute. The
    methods of module Filters are proved against these functions. */
module Convolution {
  import opened Samples
  import opened Weights

  /** An `Array2<f32>` kernel: a list of rows (`kernel[i][j]`, row i, column j). */
  type Kernel = seq<seq<real>>

  function Cols(k: Kernel): nat
  {
    if |k| == 0 then 0 else |k[0]|
  }

  /** Every row has the same length, as in an `Array2`. */
  predicate IsMatrix(k: Kernel)
  {
    forall i :: 0 <= i < |k| ==> |k[i]| == Cols(k)
  }

  /** Width, height and channel count of an `Image`. */
  datatype Shape = Shape(width: nat, height: nat, channels: nat)

  /** Number of samples of a row-major buffer of this shape. */
  function Size(s: Shape): nat
  {
    s.width * s.height * s.channels
  }

  /** Flat index of channel `ch` of pixel (x, y): `p_y + p_x + ch` with
      `p_x = x * channels` and `p_y = y * channels * width`. */
  function Offset(s: Shape, x: int, y: int, ch: int): int
  {
    y * (s.channels * s.width) + x * s.channels + ch
  }

  lemma SizePositive(s: Shape)
    ensures Size(s) > 0 ==> s.width > 0 && s.height > 0 && s.channels > 0
  {
    if s.width == 0 || s.height == 0 || s.channels == 0 {
      assert Size(s) == 0;
    }
  }

  /** Every in-range coordinate addresses a sample of the buffer, so the
      `buf_read.get(..).unwrap()` of `convolve` never fails. */
  lemma {:induction false} OffsetInBounds(s: Shape, x: int, y: int, ch: int)
    requires 0 <= x < s.width && 0 <= y < s.height && 0 <= ch < s.channels
    ensures 0 <= Offset(s, x, y, ch) < Size(s)
  {
    var c, w := s.channels, s.width;
    MulMonotone(x, w - 1, c);
    MulMonotone(y, s.height - 1, c * w);
    assert Offset(s, x, y, ch) <= (s.height - 1) * (c * w) + (w - 1) * c + (c - 1);
    assert (s.height - 1) * (c * w) + (w - 1) * c + (c - 1) == Size(s) - 1;
    assert 0 <= y * (c * w) && 0 <= x * c;
  }

  /** An offset determines its pixel and channel. */
  lemma OffsetDecompose(s: Shape, x: int, y: int, ch: int)
    requires 0 <= x < s.width && 0 <= y && 0 <= ch < s.channels
    ensures Offset(s, x, y, ch) % s.channels == ch
    ensures Offset(s, x, y, ch) / s.channels == y * s.width + x
    ensures (Offset(s, x, y, ch) / s.channels) % s.width == x
    ensures (Offset(s, x, y, ch) / s.channels) / s.width == y
  {
    var c, w := s.channels, s.width;
    assert Offset(s, x, y, ch) == (y * w + x) * c + ch;
    DivModUnique(Offset(s, x, y, ch), c, y * w + x, ch);
    DivModUnique(y * w + x, w, y, x);
  }

  /** Column of the source sample that kernel column `j` reads for output column `x`. */
  function TapX(s: Shape, k: Kernel, x: int, j: int): int
  {
    ClampCoord(x + (j - Cols(k) / 2), s.width)
  }

  /** Row of the source sample that kernel row `i` reads for output row `y`. */
  function TapY(s: Shape, k: Kernel, y: int, i: int): int
  {
    ClampCoord(y + (i - |k| / 2), s.height)
  }

  /** Contribution of kernel cell (i, j) to channel `ch` of output pixel (x, y):
      `channel.into() * kernel_element`, with the source sample read at the
      clamped coordinates. */
  function Tap(src: seq<U8>, s: Shape, k: Kernel, x: int, y: int, ch: int, i: int, j: int): real
    requires IsMatrix(k) && 0 <= i < |k| && 0 <= j < Cols(k)
    requires |src| == Size(s) && s.width > 0 && s.height > 0 && 0 <= ch < s.channels
  {
    OffsetInBounds(s, TapX(s, k, x, j), TapY(s, k, y, i), ch);
    src[Offset(s, TapX(s, k, x, j), TapY(s, k, y, i), ch)] as real * k[i][j]
  }

  /** The taps of kernel cell (i, j) read the consecutive samples of one
      source pixel, `channels` of them from its first sample on. */
  lemma TapPixel(src: seq<U8>, s: Shape, k: Kernel, x: int, y: int, i: int, j: int)
    requires IsMatrix(k) && 0 <= i < |k| && 0 <= j < Cols(k)
    requires |src| == Size(s) && s.width > 0 && s.height > 0 && s.channels > 0
    ensures 0 <= Offset(s, TapX(s, k, x, j), TapY(s, k, y, i), 0)
    ensures Offset(s, TapX(s, k, x, j), TapY(s, k, y, i), 0) + s.channels <= |src|
    ensures forall q :: 0 <= q < s.channels ==>
      Tap(src, s, k, x, y, q, i, j) == src[Offset(s, TapX(s, k, x, j), TapY(s, k, y, i), 0) + q] as real * k[i][j]
  {
    var tx, ty := TapX(s, k, x, j), TapY(s, k, y, i);
    OffsetInBounds(s, tx, ty, 0);
    OffsetInBounds(s, tx, ty, s.channels - 1);
    forall q | 0 <= q < s.channels
      ensures Tap(src, s, k, x, y, q, i, j) == src[Offset(s, tx, ty, 0) + q] as real * k[i][j]
    {
      assert Offset(s, tx, ty, q) == Offset(s, tx, ty, 0) + q;
    }
  }

  /** Sum of the first `n` cells of kernel row `i`. */
  function RowSum(src: seq<U8>, s: Shape, k: Kernel, x: int, y: int, ch: int, i: int, n: nat): real
    requires IsMatrix(k) && 0 <= i < |k| && n <= Cols(k)
    requires |src| == Size(s) && s.width > 0 && s.height > 0 && 0 <= ch < s.channels
  {
    if n == 0 then 0.0 else RowSum(src, s, k, x, y, ch, i, n - 1) + Tap(src, s, k, x, y, ch, i, n - 1)
  }

  /** Sum over the first `m` kernel rows, in the row-major order of
      `kernel.indexed_iter()`, starting from `Weight(0.0)`. */
  function WindowSum(src: seq<U8>, s: Shape, k: Kernel, x: int, y: int, ch: int, m: nat): real
    requires IsMatrix(k) && m <= |k|
    requires |src| == Size(s) && s.width > 0 && s.height > 0 && 0 <= ch < s.channels
  {
    if m == 0 then 0.0
    else WindowSum(src, s, k, x, y, ch, m - 1) + RowSum(src, s, k, x, y, ch, m - 1, Cols(k))
  }

  /** The sample `convolve` writes for channel `ch` of pixel (x, y). */
  function ConvolvedSample(src: seq<U8>, s: Shape, k: Kernel, x: int, y: int, ch: int): U8
    requires IsMatrix(k)
    requires |src| == Size(s) && s.width > 0 && s.height > 0 && 0 <= ch < s.channels
  {
    ToU8(Weight(WindowSum(src, s, k, x, y, ch, |k|)))
  }

  /** The whole write buffer after `convolve(src -> dst)`: the accumulator has
      four slots, so channels 0..3 of each pixel are rewritten and any
      further channel keeps its value in `dst`. */
  function Convolved(src: seq<U8>, dst: seq<U8>, s: Shape, k: Kernel): (r: seq<U8>)
    requires IsMatrix(k) && |src| == Size(s) && |dst| == Size(s)
    ensures |r| == |dst|
  {
    SizePositive(s);
    seq(|dst|, t requires 0 <= t < |dst| =>
      if t % s.channels < 4
      then ConvolvedSample(src, s, k, (t / s.channels) % s.width, (t / s.channels) / s.width, t % s.channels)
      else dst[t])
  }

  /** The per-sample formula of `convolve`: channel `ch` of pixel (x, y) is the
      clamped, truncated sum over all kernel cells of weight times the source
      sample at the clamped coordinates; channels from 4 on are left alone. */
  lemma ConvolvedAt(src: seq<U8>, dst: seq<U8>, s: Shape, k: Kernel, x: int, y: int, ch: int)
    requires IsMatrix(k) && |src| == Size(s) && |dst| == Size(s)
    requires 0 <= x < s.width && 0 <= y < s.height && 0 <= ch < s.channels
    ensures 0 <= Offset(s, x, y, ch) < |dst|
    ensures Convolved(src, dst, s, k)[Offset(s, x, y, ch)]
         == if ch < 4 then ToU8(Weight(WindowSum(src, s, k, x, y, ch, |k|))) else dst[Offset(s, x, y, ch)]
  {
    OffsetInBounds(s, x, y, ch);
    OffsetDecompose(s, x, y, ch);
  }

  /** Channels from 4 on keep their value in `dst`. */
  lemma ConvolvedKeepsExtraChannels(src: seq<U8>, dst: seq<U8>, s: Shape, k: Kernel, x: int, y: int)
    requires IsMatrix(k) && |src| == Size(s) && |dst| == Size(s)
    requires 0 <= x < s.width && 0 <= y < s.height && s.channels > 0
    ensures Offset(s, x, y, 0) + s.channels <= |dst|
    ensures forall t :: Offset(s, x, y, 0) + 4 <= t < Offset(s, x, y, 0) + s.channels ==>
      Convolved(src, dst, s, k)[t] == dst[t]
  {
    OffsetInBounds(s, x, y, s.channels - 1);
    var base := Offset(s, x, y, 0);
    forall t | base + 4 <= t < base + s.channels
      ensures Convolved(src, dst, s, k)[t] == dst[t]
    {
      ConvolvedExtraSample(src, dst, s, k, x, y, t - base);
    }
  }

  lemma ConvolvedExtraSample(src: seq<U8>, dst: seq<U8>, s: Shape, k: Kernel, x: int, y: int, ch: int)
    requires IsMatrix(k) && |src| == Size(s) && |dst| == Size(s)
    requires 0 <= x < s.width && 0 <= y < s.height && 4 <= ch < s.channels
    ensures 0 <= Offset(s, x, y, 0) + ch < |dst|
    ensures Convolved(src, dst, s, k)[Offset(s, x, y, 0) + ch] == dst[Offset(s, x, y, 0) + ch]
  {
    OffsetInBounds(s, x, y, ch);
    OffsetDecompose(s, x, y, ch);
    assert Offset(s, x, y, ch) == Offset(s, x, y, 0) + ch;
  }

  /** Sum of the first `n` weights of kernel row `i`. */
  function KernelRowTotal(k: Kernel, i: int, n: nat): real
    requires IsMatrix(k) && 0 <= i < |k| && n <= Cols(k)
  {
    if n == 0 then 0.0 else KernelRowTotal(k, i, n - 1) + k[i][n - 1]
  }

  /** Sum of the weights of the first `m` kernel rows. */
  function KernelPartialTotal(k: Kernel, m: nat): real
    requires IsMatrix(k) && m <= |k|
  {
    if m == 0 then 0.0 else KernelPartialTotal(k, m - 1) + KernelRowTotal(k, m - 1, Cols(k))
  }

  /** Sum of all kernel weights: 1 for a blur kernel, 0 for a gradient kernel. */
  function KernelTotal(k: Kernel): real
    requires IsMatrix(k)
  {
    KernelPartialTotal(k, |k|)
  }

  /** Every pixel has the colour `color` (one sample per channel). */
  predicate UniformColor(src: seq<U8>, s: Shape, color: seq<U8>)
  {
    |color| == s.channels && s.channels > 0 &&
    forall t :: 0 <= t < |src| ==> src[t] == color[t % s.channels]
  }

  /** In a single-colour image every tap reads the colour's sample. */
  lemma TapUniform(src: seq<U8>, s: Shape, k: Kernel, color: seq<U8>, x: int, y: int, ch: int, i: int, j: int)
    requires IsMatrix(k) && 0 <= i < |k| && 0 <= j < Cols(k)
    requires |src| == Size(s) && s.width > 0 && s.height > 0 && 0 <= ch < s.channels
    requires UniformColor(src, s, color)
    ensures Tap(src, s, k, x, y, ch, i, j) == color[ch] as real * k[i][j]
  {
    var tx, ty := TapX(s, k, x, j), TapY(s, k, y, i);
    OffsetInBounds(s, tx, ty, ch);
    OffsetDecompose(s, tx, ty, ch);
  }

  /** `f` times each of the first `n` weights of kernel row `i`, summed. */
  function ScaledRowTotal(k: Kernel, i: int, n: nat, f: real): real
    requires IsMatrix(k) && 0 <= i < |k| && n <= Cols(k)
  {
    if n == 0 then 0.0 else ScaledRowTotal(k, i, n - 1, f) + f * k[i][n - 1]
  }

  /** `f` times the weights of each of the first `m` kernel rows, summed. */
  function ScaledPartialTotal(k: Kernel, m: nat, f: real): real
    requires IsMatrix(k) && m <= |k|
  {
    if m == 0 then 0.0 else ScaledPartialTotal(k, m - 1, f) + ScaledRowTotal(k, m - 1, Cols(k), f)
  }

  lemma {:induction false} ScaledRowTotalIsScaled(k: Kernel, i: int, n: nat, f: real)
    requires IsMatrix(k) && 0 <= i < |k| && n <= Cols(k)
    ensures ScaledRowTotal(k, i, n, f) == f * KernelRowTotal(k, i, n)
  {
    if n > 0 {
      ScaledRowTotalIsScaled(k, i, n - 1, f);
      AddScaled(ScaledRowTotal(k, i, n, f), ScaledRowTotal(k, i, n - 1, f), f * k[i][n - 1], f,
                KernelRowTotal(k, i, n), KernelRowTotal(k, i, n - 1), k[i][n - 1]);
    }
  }

  lemma {:induction false} ScaledPartialTotalIsScaled(k: Kernel, m: nat, f: real)
    requires IsMatrix(k) && m <= |k|
    ensures ScaledPartialTotal(k, m, f) == f * KernelPartialTotal(k, m)
  {
    if m > 0 {
      ScaledPartialTotalIsScaled(k, m - 1, f);
      ScaledRowTotalIsScaled(k, m - 1, Cols(k), f);
      AddScaled(ScaledPartialTotal(k, m, f), ScaledPartialTotal(k, m - 1, f), ScaledRowTotal(k, m - 1, Cols(k), f), f,
                KernelPartialTotal(k, m), KernelPartialTotal(k, m - 1), KernelRowTotal(k, m - 1, Cols(k)));
    }
  }

  /** A kernel row whose every tap reads the same sample `f` sums to `f`
      times the weights. */
  lemma {:induction false} RowSumOfScaledTaps(src: seq<U8>, s: Shape, k: Kernel, x: int, y: int, ch: int, i: int, n: nat, f: real)
    requires IsMatrix(k) && 0 <= i < |k| && n <= Cols(k)
    requires |src| == Size(s) && s.width > 0 && s.height > 0 && 0 <= ch < s.channels
    requires forall j :: 0 <= j < Cols(k) ==> Tap(src, s, k, x, y, ch, i, j) == f * k[i][j]
    ensures RowSum(src, s, k, x, y, ch, i, n) == ScaledRowTotal(k, i, n, f)
  {
    if n > 0 {
      RowSumOfScaledTaps(src, s, k, x, y, ch, i, n - 1, f);
    }
  }

  lemma RowSumUniform(src: seq<U8>, s: Shape, k: Kernel, color: seq<U8>, x: int, y: int, ch: int, i: int)
    requires IsMatrix(k) && 0 <= i < |k|
    requires |src| == Size(s) && s.width > 0 && s.height > 0 && 0 <= ch < s.channels
    requires UniformColor(src, s, color)
    ensures RowSum(src, s, k, x, y, ch, i, Cols(k)) == ScaledRowTotal(k, i, Cols(k), color[ch] as real)
  {
    forall j | 0 <= j < Cols(k) ensures Tap(src, s, k, x, y, ch, i, j) == color[ch] as real * k[i][j] {
      TapUniform(src, s, k, color, x, y, ch, i, j);
    }
    RowSumOfScaledTaps(src, s, k, x, y, ch, i, Cols(k), color[ch] as real);
  }

  lemma {:induction false} WindowSumUniform(src: seq<U8>, s: Shape, k: Kernel, color: seq<U8>, x: int, y: int, ch: int, m: nat)
    requires IsMatrix(k) && m <= |k|
    requires |src| == Size(s) && s.width > 0 && s.height > 0 && 0 <= ch < s.channels
    requires UniformColor(src, s, color)
    ensures WindowSum(src, s, k, x, y, ch, m) == ScaledPartialTotal(k, m, color[ch] as real)
  {
    if m > 0 {
      WindowSumUniform(src, s, k, color, x, y, ch, m - 1);
      RowSumUniform(src, s, k, color, x, y, ch, m - 1);
    }
  }

  /** With a blur kernel, every window of a single-colour image sums to the colour. */
  lemma WindowSumOfUniformBlur(src: seq<U8>, s: Shape, k: Kernel, color: seq<U8>, x: int, y: int, ch: int)
    requires IsMatrix(k) && KernelTotal(k) == 1.0
    requires |src| == Size(s) && s.width > 0 && s.height > 0 && 0 <= ch < s.channels
    requires UniformColor(src, s, color)
    ensures WindowSum(src, s, k, x, y, ch, |k|) == color[ch] as real
  {
    WindowSumUniform(src, s, k, color, x, y, ch, |k|);
    ScaledPartialTotalIsScaled(k, |k|, color[ch] as real);
  }

  /** With a gradient kernel, every window of a single-colour image sums to 0. */
  lemma WindowSumOfUniformGradient(src: seq<U8>, s: Shape, k: Kernel, color: seq<U8>, x: int, y: int, ch: int)
    requires IsMatrix(k) && KernelTotal(k) == 0.0
    requires |src| == Size(s) && s.width > 0 && s.height > 0 && 0 <= ch < s.channels
    requires UniformColor(src, s, color)
    ensures WindowSum(src, s, k, x, y, ch, |k|) == 0.0
  {
    WindowSumUniform(src, s, k, color, x, y, ch, |k|);
    ScaledPartialTotalIsScaled(k, |k|, color[ch] as real);
  }

  /** A blur kernel (weights summing to 1) leaves a single-colour image with at
      most four channels unchanged: it is a fixed point. */
  lemma BlurFixesUniform(src: seq<U8>, dst: seq<U8>, s: Shape, k: Kernel, color: seq<U8>)
    requires IsMatrix(k) && |src| == Size(s) && |dst| == Size(s)
    requires UniformColor(src, s, color) && s.channels <= 4
    requires KernelTotal(k) == 1.0
    ensures Convolved(src, dst, s, k) == src
  {
    SizePositive(s);
    forall t | 0 <= t < |src| ensures Convolved(src, dst, s, k)[t] == src[t] {
      var c := s.channels;
      WindowSumOfUniformBlur(src, s, k, color, (t / c) % s.width, (t / c) / s.width, t % c);
      ToU8OfByte(color[t % c]);
    }
  }

  /** A gradient kernel (weights summing to 0) maps a single-colour image to
      zero in channels 0..3. */
  lemma GradientOfUniformIsZero(src: seq<U8>, dst: seq<U8>, s: Shape, k: Kernel, color: seq<U8>)
    requires IsMatrix(k) && |src| == Size(s) && |dst| == Size(s)
    requires UniformColor(src, s, color)
    requires KernelTotal(k) == 0.0
    ensures forall t :: 0 <= t < |dst| && t % s.channels < 4 ==> Convolved(src, dst, s, k)[t] == 0
  {
    SizePositive(s);
    forall t | 0 <= t < |dst| && t % s.channels < 4 ensures Convolved(src, dst, s, k)[t] == 0 {
      var c := s.channels;
      WindowSumOfUniformGradient(src, s, k, color, (t / c) % s.width, (t / c) / s.width, t % c);
    }
  }

  /** With the 1x1 kernel [[1]], the window of a pixel is that pixel itself. */
  lemma IdentityWindow(src: seq<U8>, s: Shape, x: int, y: int, ch: int)
    requires |src| == Size(s) && 0 <= x < s.width && 0 <= y < s.height && 0 <= ch < s.channels
    ensures 0 <= Offset(s, x, y, ch) < |src|
    ensures WindowSum(src, s, [[1.0]], x, y, ch, 1) == src[Offset(s, x, y, ch)] as real
  {
    var k: Kernel := [[1.0]];
    OffsetInBounds(s, x, y, ch);
    assert TapX(s, k, x, 0) == x && TapY(s, k, y, 0) == y;
    assert Tap(src, s, k, x, y, ch, 0, 0) == src[Offset(s, x, y, ch)] as real;
    assert RowSum(src, s, k, x, y, ch, 0, 0) == 0.0;
    assert RowSum(src, s, k, x, y, ch, 0, 1) == RowSum(src, s, k, x, y, ch, 0, 0) + Tap(src, s, k, x, y, ch, 0, 0);
    assert WindowSum(src, s, k, x, y, ch, 0) == 0.0;
    assert WindowSum(src, s, k, x, y, ch, 1) == WindowSum(src, s, k, x, y, ch, 0) + RowSum(src, s, k, x, y, ch, 0, 1);
  }

  /** The kernel with the single weight 1 copies channels 0..3 of every pixel. */
  lemma IdentityKernelCopies(src: seq<U8>, dst: seq<U8>, s: Shape, x: int, y: int, ch: int)
    requires |src| == Size(s) && |dst| == Size(s)
    requires 0 <= x < s.width && 0 <= y < s.height && 0 <= ch < s.channels && ch < 4
    ensures 0 <= Offset(s, x, y, ch) < |src|
    ensures Convolved(src, dst, s, [[1.0]])[Offset(s, x, y, ch)] == src[Offset(s, x, y, ch)]
  {
    ConvolvedAt(src, dst, s, [[1.0]], x, y, ch);
    IdentityWindow(src, s, x, y, ch);
    ToU8OfByte(src[Offset(s, x, y, ch)]);
  }

  /** `box_blur_1d` / `gaussian_blur_1d` on the buffers (read, write): the row
      pass into `buf_write`, the copy of `buf_write` into `buf_read`, then the
      column pass. The result is the final (`buf_read`, `buf_write`). */
  function SeparableBlurred(read: seq<U8>, write: seq<U8>, s: Shape, kx: Kernel, ky: Kernel): (r: (seq<U8>, seq<U8>))
    requires IsMatrix(kx) && IsMatrix(ky) && |read| == Size(s) && |write| == Size(s)
    ensures |r.0| == Size(s) && |r.1| == Size(s)
  {
    var rows := Convolved(read, write, s, kx);
    (rows, Convolved(rows, rows, s, ky))
  }

  /** Two blur passes leave a single-colour image with at most four channels
      unchanged in both buffers. */
  lemma SeparableBlurFixesUniform(read: seq<U8>, write: seq<U8>, s: Shape, kx: Kernel, ky: Kernel, color: seq<U8>)
    requires IsMatrix(kx) && IsMatrix(ky) && |read| == Size(s) && |write| == Size(s)
    requires UniformColor(read, s, color) && s.channels <= 4
    requires KernelTotal(kx) == 1.0 && KernelTotal(ky) == 1.0
    ensures SeparableBlurred(read, write, s, kx, ky) == (read, read)
  {
    BlurFixesUniform(read, write, s, kx, color);
    BlurFixesUniform(read, read, s, ky, color);
  }

  /** The 3x1 RGB row [0,0,0 | 255,255,255 | 0,0,0] of the library's unit test. */
  function TestRow(): seq<U8>
  {
    seq(9, t => if 3 <= t < 6 then 255 else 0)
  }

  /** The radius-1 box kernels of that test: three weights 1/3, as a row and as a column. */
  function ThirdsRow(): Kernel
  {
    [seq(3, _ => 1.0 / 3.0)]
  }

  function ThirdsColumn(): Kernel
  {
    seq(3, _ => [1.0 / 3.0])
  }

  /** In a one-row image with a one-row kernel, a tap reads the clamped
      column of the only row. */
  lemma TapOfSingleRow(src: seq<U8>, s: Shape, k: Kernel, x: int, ch: int, j: int)
    requires IsMatrix(k) && |k| == 1 && 0 <= j < Cols(k)
    requires |src| == Size(s) && s.width > 0 && s.height == 1 && 0 <= ch < s.channels
    ensures 0 <= TapX(s, k, x, j) * s.channels + ch < |src|
    ensures Tap(src, s, k, x, 0, ch, 0, j) == src[TapX(s, k, x, j) * s.channels + ch] as real * k[0][j]
  {
    var tx := TapX(s, k, x, j);
    assert TapY(s, k, 0, 0) == 0;
    OffsetInBounds(s, tx, 0, ch);
    assert Offset(s, tx, 0, ch) == tx * s.channels + ch;
  }

  lemma ThirdsTap(x: int, ch: int, j: int)
    requires 0 <= x < 3 && 0 <= ch < 3 && 0 <= j < 3
    ensures Tap(TestRow(), Shape(3, 1, 3), ThirdsRow(), x, 0, ch, 0, j)
         == if x + j == 2 then 85.0 else 0.0
  {
    var s, k := Shape(3, 1, 3), ThirdsRow();
    TapOfSingleRow(TestRow(), s, k, x, ch, j);
    var tx := TapX(s, k, x, j);
    assert tx == ClampCoord(x + j - 1, 3);
    assert k[0][j] == 1.0 / 3.0;
    if x + j == 2 {
      assert tx == 1 && TestRow()[tx * 3 + ch] == 255;
    } else if x + j < 2 {
      assert tx == 0 && TestRow()[tx * 3 + ch] == 0;
    } else {
      assert tx == 2 && TestRow()[tx * 3 + ch] == 0;
    }
  }

  /** A one-row, three-column kernel adds exactly three taps. */
  lemma WindowSumOfRow3(src: seq<U8>, s: Shape, k: Kernel, x: int, y: int, ch: int)
    requires IsMatrix(k) && |k| == 1 && Cols(k) == 3
    requires |src| == Size(s) && s.width > 0 && s.height > 0 && 0 <= ch < s.channels
    ensures WindowSum(src, s, k, x, y, ch, 1)
         == Tap(src, s, k, x, y, ch, 0, 0) + Tap(src, s, k, x, y, ch, 0, 1) + Tap(src, s, k, x, y, ch, 0, 2)
  {
    assert RowSum(src, s, k, x, y, ch, 0, 0) == 0.0;
    assert RowSum(src, s, k, x, y, ch, 0, 1) == RowSum(src, s, k, x, y, ch, 0, 0) + Tap(src, s, k, x, y, ch, 0, 0);
    assert RowSum(src, s, k, x, y, ch, 0, 2) == RowSum(src, s, k, x, y, ch, 0, 1) + Tap(src, s, k, x, y, ch, 0, 1);
    assert RowSum(src, s, k, x, y, ch, 0, 3) == RowSum(src, s, k, x, y, ch, 0, 2) + Tap(src, s, k, x, y, ch, 0, 2);
    assert WindowSum(src, s, k, x, y, ch, 0) == 0.0;
    assert WindowSum(src, s, k, x, y, ch, 1) == WindowSum(src, s, k, x, y, ch, 0) + RowSum(src, s, k, x, y, ch, 0, 3);
  }

  lemma ThirdsRowWindow(x: int, ch: int)
    requires 0 <= x < 3 && 0 <= ch < 3
    ensures WindowSum(TestRow(), Shape(3, 1, 3), ThirdsRow(), x, 0, ch, 1) == 85.0
  {
    var src, s, k := TestRow(), Shape(3, 1, 3), ThirdsRow();
    WindowSumOfRow3(src, s, k, x, 0, ch);
    var t0, t1, t2 := Tap(src, s, k, x, 0, ch, 0, 0), Tap(src, s, k, x, 0, ch, 0, 1), Tap(src, s, k, x, 0, ch, 0, 2);
    ThirdsTap(x, ch, 0);
    ThirdsTap(x, ch, 1);
    ThirdsTap(x, ch, 2);
  }

  /** The row pass of that test writes 85 into channel ch of pixel x. */
  lemma ThirdsRowPixel(x: int, ch: int)
    requires 0 <= x < 3 && 0 <= ch < 3
    ensures 0 <= Offset(Shape(3, 1, 3), x, 0, ch) < 9
    ensures Convolved(TestRow(), TestRow(), Shape(3, 1, 3), ThirdsRow())[Offset(Shape(3, 1, 3), x, 0, ch)] == 85
  {
    var src, s, k := TestRow(), Shape(3, 1, 3), ThirdsRow();
    assert IsMatrix(k) && |k| == 1;
    ConvolvedAt(src, src, s, k, x, 0, ch);
    ThirdsRowWindow(x, ch);
  }

  /** The row pass of that test already averages every sample to 85. */
  lemma RowPassOfTestRow()
    ensures Convolved(TestRow(), TestRow(), Shape(3, 1, 3), ThirdsRow()) == seq(9, _ => 85)
  {
    var s := Shape(3, 1, 3);
    var rows := Convolved(TestRow(), TestRow(), s, ThirdsRow());
    forall t | 0 <= t < 9 ensures rows[t] == 85 {
      var x, ch := t / 3, t % 3;
      assert Offset(s, x, 0, ch) == t;
      ThirdsRowPixel(x, ch);
    }
  }

  lemma ThirdsColumnTotal()
    ensures IsMatrix(ThirdsColumn()) && KernelTotal(ThirdsColumn()) == 1.0
  {
    var k := ThirdsColumn();
    assert KernelRowTotal(k, 0, 1) == 1.0 / 3.0 && KernelRowTotal(k, 1, 1) == 1.0 / 3.0 && KernelRowTotal(k, 2, 1) == 1.0 / 3.0;
    assert KernelPartialTotal(k, 1) == 1.0 / 3.0;
    assert KernelPartialTotal(k, 2) == 2.0 / 3.0;
  }

  /** The column pass keeps the single-colour result of the row pass. */
  lemma ColumnPassOfFlatRow()
    ensures Convolved(seq(9, _ => 85), seq(9, _ => 85), Shape(3, 1, 3), ThirdsColumn()) == seq(9, _ => 85)
  {
    var flat: seq<U8> := seq(9, _ => 85);
    assert UniformColor(flat, Shape(3, 1, 3), [85, 85, 85]);
    ThirdsColumnTotal();
    BlurFixesUniform(flat, flat, Shape(3, 1, 3), ThirdsColumn(), [85, 85, 85]);
  }

  /** The separable radius-1 box blur of the test row gives 85 in all nine
      samples. */
  lemma BoxBlurTestRow()
    ensures SeparableBlurred(TestRow(), TestRow(), Shape(3, 1, 3), ThirdsRow(), ThirdsColumn()).1 == seq(9, _ => 85)
  {
    RowPassOfTestRow();
    ColumnPassOfFlatRow();
  }

  /** The 2x2 one-channel picture [1, 0 | 2, 1]. */
  function SmallSquare(): seq<U8>
  {
    [1, 0, 2, 1]
  }

  /** The radius-1 2D box kernel: nine weights 1/9. */
  function NinthsSquare(): Kernel
  {
    seq(3, _ => seq(3, _ => 1.0 / 9.0))
  }

  /** On a one-channel picture, kernel cell (i, j) reads the single sample
      of the clamped source pixel. */
  lemma TapOfOneChannel(src: seq<U8>, s: Shape, k: Kernel, x: int, y: int, i: int, j: int)
    requires IsMatrix(k) && 0 <= i < |k| && 0 <= j < Cols(k)
    requires |src| == Size(s) && s.width > 0 && s.height > 0 && s.channels == 1
    ensures 0 <= TapY(s, k, y, i) * s.width + TapX(s, k, x, j) < |src|
    ensures Tap(src, s, k, x, y, 0, i, j) == src[TapY(s, k, y, i) * s.width + TapX(s, k, x, j)] as real * k[i][j]
  {
    var tx, ty := TapX(s, k, x, j), TapY(s, k, y, i);
    OffsetInBounds(s, tx, ty, 0);
    assert Offset(s, tx, ty, 0) == ty * s.width + tx;
  }

  /** A tap whose source sample and kernel weight are known. */
  lemma TapValue(src: seq<U8>, s: Shape, k: Kernel, x: int, y: int, i: int, j: int, v: U8, w: real)
    requires IsMatrix(k) && 0 <= i < |k| && 0 <= j < Cols(k)
    requires |src| == Size(s) && s.width > 0 && s.height > 0 && s.channels == 1
    requires 0 <= TapY(s, k, y, i) * s.width + TapX(s, k, x, j) < |src|
    requires src[TapY(s, k, y, i) * s.width + TapX(s, k, x, j)] == v && k[i][j] == w
    ensures Tap(src, s, k, x, y, 0, i, j) == v as real * w
  {
    TapOfOneChannel(src, s, k, x, y, i, j);
  }

  /** A kernel row of one cell adds exactly one tap. */
  lemma RowSumOf1(src: seq<U8>, s: Shape, k: Kernel, x: int, y: int, ch: int, i: int)
    requires IsMatrix(k) && 0 <= i < |k| && Cols(k) == 1
    requires |src| == Size(s) && s.width > 0 && s.height > 0 && 0 <= ch < s.channels
    ensures RowSum(src, s, k, x, y, ch, i, 1) == Tap(src, s, k, x, y, ch, i, 0)
  {
  }

  /** A kernel row of three cells adds exactly three taps. */
  lemma RowSumOf3(src: seq<U8>, s: Shape, k: Kernel, x: int, y: int, ch: int, i: int)
    requires IsMatrix(k) && 0 <= i < |k| && Cols(k) == 3
    requires |src| == Size(s) && s.width > 0 && s.height > 0 && 0 <= ch < s.channels
    ensures RowSum(src, s, k, x, y, ch, i, 3)
         == Tap(src, s, k, x, y, ch, i, 0) + Tap(src, s, k, x, y, ch, i, 1) + Tap(src, s, k, x, y, ch, i, 2)
  {
    assert RowSum(src, s, k, x, y, ch, i, 1) == RowSum(src, s, k, x, y, ch, i, 0) + Tap(src, s, k, x, y, ch, i, 0);
    assert RowSum(src, s, k, x, y, ch, i, 2) == RowSum(src, s, k, x, y, ch, i, 1) + Tap(src, s, k, x, y, ch, i, 1);
  }

  /** A kernel of three rows adds exactly three row sums. */
  lemma WindowSumOf3Rows(src: seq<U8>, s: Shape, k: Kernel, x: int, y: int, ch: int)
    requires IsMatrix(k) && |k| == 3
    requires |src| == Size(s) && s.width > 0 && s.height > 0 && 0 <= ch < s.channels
    ensures WindowSum(src, s, k, x, y, ch, 3)
         == RowSum(src, s, k, x, y, ch, 0, Cols(k)) + RowSum(src, s, k, x, y, ch, 1, Cols(k))
            + RowSum(src, s, k, x, y, ch, 2, Cols(k))
  {
    assert WindowSum(src, s, k, x, y, ch, 1) == WindowSum(src, s, k, x, y, ch, 0) + RowSum(src, s, k, x, y, ch, 0, Cols(k));
    assert WindowSum(src, s, k, x, y, ch, 2) == WindowSum(src, s, k, x, y, ch, 1) + RowSum(src, s, k, x, y, ch, 1, Cols(k));
  }

  /** Three thirds add up as their numerators do. */
  lemma SumOfThirds(a: real, b: real, c: real, p: int, q: int, r: int)
    requires a == p as real / 3.0 && b == q as real / 3.0 && c == r as real / 3.0
    ensures a + b + c == (p + q + r) as real / 3.0
  {
  }

  /** Three ninths add up as their numerators do. */
  lemma SumOfNinths(a: real, b: real, c: real, p: int, q: int, r: int)
    requires a == p as real / 9.0 && b == q as real / 9.0 && c == r as real / 9.0
    ensures a + b + c == (p + q + r) as real / 9.0
  {
  }

  /** Converting a sum of n thirds to a sample truncates it to n / 3. */
  lemma ToU8OfThirds(n: int)
    requires 0 <= n < 768
    ensures ToU8(Weight(n as real / 3.0)) as int == n / 3
  {
    var r := ToU8(Weight(n as real / 3.0)) as int;
    assert r as real <= n as real / 3.0 < r as real + 1.0;
    assert 3 * r <= n < 3 * r + 3;
  }

  /** Converting a sum of n ninths to a sample truncates it to n / 9. */
  lemma ToU8OfNinths(n: int)
    requires 0 <= n < 2304
    ensures ToU8(Weight(n as real / 9.0)) as int == n / 9
  {
    var r := ToU8(Weight(n as real / 9.0)) as int;
    assert r as real <= n as real / 9.0 < r as real + 1.0;
    assert 9 * r <= n < 9 * r + 9;
  }

  /** The sample tap j of the radius-1 box row at pixel (x, y) reads from
      the small square: row y holds 1, 0 (top) or 2, 1 (bottom). */
  function RowTapSample(x: int, y: int, j: int): int
  {
    if x + j <= 1 then 1 + y else y
  }

  /** The sample kernel row i of the radius-1 box column at pixel (x, y)
      reads from the row-pass result: 0 above, 1 below. */
  function ColumnTapSample(y: int, i: int): int
  {
    if y + i >= 2 then 1 else 0
  }

  /** The sample cell (i, j) of the 2D box kernel at pixel (x, y) reads from
      the small square: 1 + row - column, rows and columns clamped. */
  function BoxTapSample(x: int, y: int, i: int, j: int): int
  {
    1 + (if y + i >= 2 then 1 else 0) - (if x + j >= 2 then 1 else 0)
  }

  /** Kernel row i of the 2D box kernel at pixel (x, y) adds three samples
      of one clamped row of the small square. */
  function BoxRowSample(x: int, y: int, i: int): int
  {
    (if x == 0 then 2 else 1) + 3 * (if y + i >= 2 then 1 else 0)
  }

  /** What the row pass adds up at pixel (x, y), in thirds. */
  function RowWindowSample(x: int, y: int): int
  {
    (if x == 0 then 2 else 1) + 3 * y
  }

  /** What the 2D box pass adds up at pixel (x, y), in ninths. */
  function BoxWindowSample(x: int, y: int): int
  {
    3 * (if x == 0 then 2 else 1) + 3 * (1 + y)
  }

  /** The numerators of one box row, one box column and one 2D box window add
      up to the sums the row, column and 2D passes divide by 3 or 9. */
  lemma SmallSquareNumerators(x: int, y: int)
    requires 0 <= x < 2 && 0 <= y < 2
    ensures RowTapSample(x, y, 0) + RowTapSample(x, y, 1) + RowTapSample(x, y, 2) == RowWindowSample(x, y)
    ensures ColumnTapSample(y, 0) + ColumnTapSample(y, 1) + ColumnTapSample(y, 2) == 1 + y
    ensures BoxRowSample(x, y, 0) + BoxRowSample(x, y, 1) + BoxRowSample(x, y, 2) == BoxWindowSample(x, y)
    ensures forall i | 0 <= i < 3 :: BoxTapSample(x, y, i, 0) + BoxTapSample(x, y, i, 1) + BoxTapSample(x, y, i, 2) == BoxRowSample(x, y, i)
    ensures 0 <= RowWindowSample(x, y) < 768 && RowWindowSample(x, y) / 3 == y && (1 + y) / 3 == 0
    ensures 0 <= BoxWindowSample(x, y) < 2304 && BoxWindowSample(x, y) / 9 == if x == 1 && y == 0 then 0 else 1
  {
  }

  /** Tap j of the radius-1 box row at pixel (x, y) reads the small square
      at the clamped column x + j - 1 of row y. */
  lemma SmallSquareRowIndex(x: int, y: int, j: int)
    requires 0 <= x < 2 && 0 <= y < 2 && 0 <= j < 3
    ensures 0 <= TapY(Shape(2, 2, 1), ThirdsRow(), y, 0) * 2 + TapX(Shape(2, 2, 1), ThirdsRow(), x, j) < 4
    ensures SmallSquare()[TapY(Shape(2, 2, 1), ThirdsRow(), y, 0) * 2 + TapX(Shape(2, 2, 1), ThirdsRow(), x, j)] as int
         == RowTapSample(x, y, j)
  {
    var s, k := Shape(2, 2, 1), ThirdsRow();
    assert Cols(k) == 3 && |k| == 1;
    var tx := TapX(s, k, x, j);
    assert tx == if x + j <= 1 then 0 else 1;
    assert TapY(s, k, y, 0) == y;
    assert y * 2 + tx == 2 * y + tx;
  }

  /** Tap j of the radius-1 box row at pixel (x, y) of the small square. */
  lemma SmallSquareRowTap(x: int, y: int, j: int)
    requires 0 <= x < 2 && 0 <= y < 2 && 0 <= j < 3
    ensures Tap(SmallSquare(), Shape(2, 2, 1), ThirdsRow(), x, y, 0, 0, j)
         == RowTapSample(x, y, j) as real / 3.0
  {
    SmallSquareRowIndex(x, y, j);
    assert ThirdsRow()[0][j] == 1.0 / 3.0;
    TapValue(SmallSquare(), Shape(2, 2, 1), ThirdsRow(), x, y, 0, j, RowTapSample(x, y, j) as U8, 1.0 / 3.0);
  }

  /** The row pass of the radius-1 box blur on the small square: each
      pixel averages three clamped samples of its row. */
  lemma SmallSquareRowWindow(x: int, y: int)
    requires 0 <= x < 2 && 0 <= y < 2
    ensures WindowSum(SmallSquare(), Shape(2, 2, 1), ThirdsRow(), x, y, 0, 1)
         == RowWindowSample(x, y) as real / 3.0
  {
    var src, s, k := SmallSquare(), Shape(2, 2, 1), ThirdsRow();
    var t0, t1, t2 := Tap(src, s, k, x, y, 0, 0, 0), Tap(src, s, k, x, y, 0, 0, 1), Tap(src, s, k, x, y, 0, 0, 2);
    assert WindowSum(src, s, k, x, y, 0, 1) == t0 + t1 + t2 by {
      WindowSumOfRow3(src, s, k, x, y, 0);
    }
    assert t0 + t1 + t2 == (RowTapSample(x, y, 0) + RowTapSample(x, y, 1) + RowTapSample(x, y, 2)) as real / 3.0 by {
      SmallSquareRowTap(x, y, 0);
      SmallSquareRowTap(x, y, 1);
      SmallSquareRowTap(x, y, 2);
      SumOfThirds(t0, t1, t2, RowTapSample(x, y, 0), RowTapSample(x, y, 1), RowTapSample(x, y, 2));
    }
    SmallSquareNumerators(x, y);
  }

  /** What the row pass writes into the small square: the averages 2/3, 1/3,
      5/3 and 4/3 truncate to 0, 0, 1 and 1. */
  function SmallSquareRows(): seq<U8>
  {
    seq(4, t => if t < 2 then 0 else 1)
  }

  /** The row pass writes y at pixel (x, y): 2/3 and 1/3 truncate to 0, 5/3
      and 4/3 to 1. */
  lemma SmallSquareRowPixel(x: int, y: int)
    requires 0 <= x < 2 && 0 <= y < 2
    ensures 0 <= Offset(Shape(2, 2, 1), x, y, 0) < 4
    ensures Convolved(SmallSquare(), SmallSquare(), Shape(2, 2, 1), ThirdsRow())[Offset(Shape(2, 2, 1), x, y, 0)] as int == y
  {
    var src, s, k := SmallSquare(), Shape(2, 2, 1), ThirdsRow();
    assert IsMatrix(k) && |k| == 1;
    ConvolvedAt(src, src, s, k, x, y, 0);
    SmallSquareRowWindow(x, y);
    SmallSquareNumerators(x, y);
    ToU8OfThirds(RowWindowSample(x, y));
  }

  lemma SmallSquareRowPass()
    ensures Convolved(SmallSquare(), SmallSquare(), Shape(2, 2, 1), ThirdsRow()) == SmallSquareRows()
  {
    var src, s, k := SmallSquare(), Shape(2, 2, 1), ThirdsRow();
    var rows := Convolved(src, src, s, k);
    forall t | 0 <= t < 4
      ensures rows[t] == if t < 2 then 0 else 1
    {
      var x, y := t % 2, t / 2;
      assert Offset(s, x, y, 0) == t;
      SmallSquareRowPixel(x, y);
    }
  }

  /** Kernel row i of the radius-1 box column at pixel (x, y) reads row
      y + i - 1, clamped, of the small square. */
  lemma SmallSquareColumnIndex(x: int, y: int, i: int)
    requires 0 <= x < 2 && 0 <= y < 2 && 0 <= i < 3
    ensures TapY(Shape(2, 2, 1), ThirdsColumn(), y, i) * 2 + TapX(Shape(2, 2, 1), ThirdsColumn(), x, 0)
         == (if y + i >= 2 then 2 else 0) + x
  {
    var s, k := Shape(2, 2, 1), ThirdsColumn();
    assert Cols(k) == 1 && |k| == 3;
    assert TapX(s, k, x, 0) == x;
    assert TapY(s, k, y, i) == if y + i >= 2 then 1 else 0;
  }

  /** Tap i of the radius-1 box column at pixel (x, y) of the row-pass
      result, whose top row holds 0 and whose bottom row holds 1. */
  lemma SmallSquareColumnTap(x: int, y: int, i: int)
    requires 0 <= x < 2 && 0 <= y < 2 && 0 <= i < 3
    ensures Tap(SmallSquareRows(), Shape(2, 2, 1), ThirdsColumn(), x, y, 0, i, 0)
         == ColumnTapSample(y, i) as real / 3.0
  {
    SmallSquareColumnIndex(x, y, i);
    assert ThirdsColumn()[i][0] == 1.0 / 3.0;
    TapValue(SmallSquareRows(), Shape(2, 2, 1), ThirdsColumn(), x, y, i, 0, ColumnTapSample(y, i) as U8, 1.0 / 3.0);
  }

  /** The column pass averages 0, 0, 1 (top row) or 0, 1, 1 (bottom row). */
  lemma SmallSquareColumnWindow(x: int, y: int)
    requires 0 <= x < 2 && 0 <= y < 2
    ensures WindowSum(SmallSquareRows(), Shape(2, 2, 1), ThirdsColumn(), x, y, 0, 3) == (1 + y) as real / 3.0
  {
    var rows, s, k := SmallSquareRows(), Shape(2, 2, 1), ThirdsColumn();
    assert IsMatrix(k) && Cols(k) == 1;
    WindowSumOf3Rows(rows, s, k, x, y, 0);
    RowSumOf1(rows, s, k, x, y, 0, 0);
    RowSumOf1(rows, s, k, x, y, 0, 1);
    RowSumOf1(rows, s, k, x, y, 0, 2);
    SmallSquareColumnTap(x, y, 0);
    SmallSquareColumnTap(x, y, 1);
    SmallSquareColumnTap(x, y, 2);
    SumOfThirds(RowSum(rows, s, k, x, y, 0, 0, 1), RowSum(rows, s, k, x, y, 0, 1, 1), RowSum(rows, s, k, x, y, 0, 2, 1),
                ColumnTapSample(y, 0), ColumnTapSample(y, 1), ColumnTapSample(y, 2));
    SmallSquareNumerators(x, y);
  }

  /** The column pass over the row-pass result writes 0 everywhere: 1/3
      and 2/3 truncate to 0. */
  lemma SmallSquareColumnPixel(x: int, y: int)
    requires 0 <= x < 2 && 0 <= y < 2
    ensures 0 <= Offset(Shape(2, 2, 1), x, y, 0) < 4
    ensures Convolved(SmallSquareRows(), SmallSquareRows(), Shape(2, 2, 1), ThirdsColumn())[Offset(Shape(2, 2, 1), x, y, 0)] == 0
  {
    var rows, s, k := SmallSquareRows(), Shape(2, 2, 1), ThirdsColumn();
    assert IsMatrix(k) && |k| == 3;
    ConvolvedAt(rows, rows, s, k, x, y, 0);
    SmallSquareColumnWindow(x, y);
    SmallSquareNumerators(x, y);
    ToU8OfThirds(1 + y);
  }

  /** The separable box blur of the small square writes 0 into every sample:
      the column averages 1/3 and 2/3 of the truncated row pass truncate again. */
  lemma SmallSquareSeparable()
    ensures SeparableBlurred(SmallSquare(), SmallSquare(), Shape(2, 2, 1), ThirdsRow(), ThirdsColumn()).1 == seq(4, _ => 0)
  {
    var rows, s, k := SmallSquareRows(), Shape(2, 2, 1), ThirdsColumn();
    SmallSquareRowPass();
    var out := Convolved(rows, rows, s, k);
    forall t | 0 <= t < 4
      ensures out[t] == 0
    {
      var x, y := t % 2, t / 2;
      assert Offset(s, x, y, 0) == t;
      SmallSquareColumnPixel(x, y);
    }
  }

  /** Cell (i, j) of the 2D box kernel at pixel (x, y) reads the small
      square at the clamped column x + j - 1 and row y + i - 1; the sample
      there is 1 + row - column. */
  lemma SmallSquareBoxIndex(x: int, y: int, i: int, j: int)
    requires 0 <= x < 2 && 0 <= y < 2 && 0 <= i < 3 && 0 <= j < 3
    ensures 0 <= TapY(Shape(2, 2, 1), NinthsSquare(), y, i) * 2 + TapX(Shape(2, 2, 1), NinthsSquare(), x, j) < 4
    ensures SmallSquare()[TapY(Shape(2, 2, 1), NinthsSquare(), y, i) * 2 + TapX(Shape(2, 2, 1), NinthsSquare(), x, j)] as int
         == BoxTapSample(x, y, i, j)
  {
    var s, k := Shape(2, 2, 1), NinthsSquare();
    assert Cols(k) == 3 && |k| == 3;
    var tx, ty := TapX(s, k, x, j), TapY(s, k, y, i);
    assert tx == if x + j >= 2 then 1 else 0;
    assert ty == if y + i >= 2 then 1 else 0;
    assert ty * 2 + tx == 2 * ty + tx;
  }

  /** The tap of cell (i, j) of the 2D box kernel at pixel (x, y). */
  lemma SmallSquareBoxTap(x: int, y: int, i: int, j: int)
    requires 0 <= x < 2 && 0 <= y < 2 && 0 <= i < 3 && 0 <= j < 3
    ensures Tap(SmallSquare(), Shape(2, 2, 1), NinthsSquare(), x, y, 0, i, j)
         == BoxTapSample(x, y, i, j) as real / 9.0
  {
    SmallSquareBoxIndex(x, y, i, j);
    assert NinthsSquare()[i][j] == 1.0 / 9.0;
    TapValue(SmallSquare(), Shape(2, 2, 1), NinthsSquare(), x, y, i, j, BoxTapSample(x, y, i, j) as U8, 1.0 / 9.0);
  }

  /** Kernel row i of the 2D box blur at pixel (x, y) adds three taps of one
      clamped image row. */
  lemma SmallSquareBoxRow(x: int, y: int, i: int)
    requires 0 <= x < 2 && 0 <= y < 2 && 0 <= i < 3
    ensures RowSum(SmallSquare(), Shape(2, 2, 1), NinthsSquare(), x, y, 0, i, 3)
         == BoxRowSample(x, y, i) as real / 9.0
  {
    assert IsMatrix(NinthsSquare()) && Cols(NinthsSquare()) == 3;
    RowSumOf3(SmallSquare(), Shape(2, 2, 1), NinthsSquare(), x, y, 0, i);
    SmallSquareBoxTap(x, y, i, 0);
    SmallSquareBoxTap(x, y, i, 1);
    SmallSquareBoxTap(x, y, i, 2);
    var src, s, k := SmallSquare(), Shape(2, 2, 1), NinthsSquare();
    SumOfNinths(Tap(src, s, k, x, y, 0, i, 0), Tap(src, s, k, x, y, 0, i, 1), Tap(src, s, k, x, y, 0, i, 2),
                BoxTapSample(x, y, i, 0), BoxTapSample(x, y, i, 1), BoxTapSample(x, y, i, 2));
    SmallSquareNumerators(x, y);
  }

  /** The 2D box window at pixel (x, y) sums to 9, 6, 12 and 9 ninths. */
  lemma SmallSquareBoxWindow(x: int, y: int)
    requires 0 <= x < 2 && 0 <= y < 2
    ensures WindowSum(SmallSquare(), Shape(2, 2, 1), NinthsSquare(), x, y, 0, 3)
         == BoxWindowSample(x, y) as real / 9.0
  {
    var src, s, k := SmallSquare(), Shape(2, 2, 1), NinthsSquare();
    assert IsMatrix(k) && |k| == 3 && Cols(k) == 3;
    WindowSumOf3Rows(src, s, k, x, y, 0);
    SmallSquareBoxRow(x, y, 0);
    SmallSquareBoxRow(x, y, 1);
    SmallSquareBoxRow(x, y, 2);
    SumOfNinths(RowSum(src, s, k, x, y, 0, 0, 3), RowSum(src, s, k, x, y, 0, 1, 3), RowSum(src, s, k, x, y, 0, 2, 3),
                BoxRowSample(x, y, 0), BoxRowSample(x, y, 1), BoxRowSample(x, y, 2));
    SmallSquareNumerators(x, y);
  }

  /** The 2D box pass writes 0 at pixel (1, 0), where 6/9 truncates, and 1
      at the other three pixels, where 9/9 and 12/9 do. */
  lemma SmallSquareBoxPixel(x: int, y: int)
    requires 0 <= x < 2 && 0 <= y < 2
    ensures 0 <= Offset(Shape(2, 2, 1), x, y, 0) < 4
    ensures Convolved(SmallSquare(), SmallSquare(), Shape(2, 2, 1), NinthsSquare())[Offset(Shape(2, 2, 1), x, y, 0)] as int
         == if x == 1 && y == 0 then 0 else 1
  {
    var src, s, k := SmallSquare(), Shape(2, 2, 1), NinthsSquare();
    assert IsMatrix(k) && |k| == 3;
    ConvolvedAt(src, src, s, k, x, y, 0);
    SmallSquareBoxWindow(x, y);
    SmallSquareNumerators(x, y);
    ToU8OfNinths(BoxWindowSample(x, y));
  }

  /** One 2D box pass over the small square writes 1, 0, 1, 1. */
  lemma SmallSquareBox2D()
    ensures Convolved(SmallSquare(), SmallSquare(), Shape(2, 2, 1), NinthsSquare()) == seq(4, t => if t == 1 then 0 else 1)
  {
    var src, s, k := SmallSquare(), Shape(2, 2, 1), NinthsSquare();
    assert IsMatrix(k);
    var out := Convolved(src, src, s, k);
    forall t | 0 <= t < 4
      ensures out[t] == if t == 1 then 0 else 1
    {
      var x, y := t % 2, t / 2;
      assert Offset(s, x, y, 0) == t;
      SmallSquareBoxPixel(x, y);
    }
  }

  /** The separable and the 2D radius-1 box blur are different operations:
      on the small square they write 0 and 1 at pixel (0, 0). */
  lemma SeparableDiffersFrom2D()
    ensures SeparableBlurred(SmallSquare(), SmallSquare(), Shape(2, 2, 1), ThirdsRow(), ThirdsColumn()).1[0]
         != Convolved(SmallSquare(), SmallSquare(), Shape(2, 2, 1), NinthsSquare())[0]
  {
    SmallSquareSeparable();
    SmallSquareBox2D();
  }
}
