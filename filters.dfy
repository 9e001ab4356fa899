/** The `Image` of filters/src/lib.rs with its two buffers, and the operations
    that rewrite them in place: `convolve`, the blur pipelines and `sobel2d`.
    Each method is proved against the functions of modules Convolution and
    Edges. The row-parallel iteration of the library becomes sequential loops:
    every row and every pixel is written by exactly one iteration. */
module Filters {
  import opened Samples
  import opened Weights
  import opened Convolution
  import opened Edges

  class Image {
    const bufRead: array<U8>
    const bufWrite: array<U8>
    const width: nat
    const height: nat
    const channels: nat

    function Dims(): Shape
    {
      Shape(width, height, channels)
    }

    /** Two distinct buffers (two `&mut` slices cannot alias), each holding
        `width * height * channels` samples. */
    ghost predicate Valid()
    {
      bufRead != bufWrite && bufRead.Length == Size(Dims()) && bufWrite.Length == Size(Dims())
    }

    constructor (read: array<U8>, write: array<U8>, w: nat, h: nat, c: nat)
      ensures bufRead == read && bufWrite == write
      ensures width == w && height == h && channels == c
      ensures read != write && read.Length == Size(Shape(w, h, c)) && write.Length == Size(Shape(w, h, c)) ==> Valid()
    {
      bufRead, bufWrite := read, write;
      width, height, channels := w, h, c;
    }

    /** Number of accumulator slots in use: `weighted_sum` has four slots and
        is zipped with the pixel's channels. */
    function Lanes(): nat
    {
      if channels < 4 then channels else 4
    }

    /** One step of the loop over `kernel.indexed_iter()`: kernel cell (i, j)
        adds weight times the clamped source sample to each slot in use. */
    method AccumulateTap(kernel: Kernel, x: nat, y: nat, i: nat, j: nat, sums: seq<Weight>) returns (r: seq<Weight>)
      requires Valid() && IsMatrix(kernel) && x < width && y < height
      requires i < |kernel| && j < Cols(kernel) && |sums| == 4
      ensures |r| == 4
      ensures forall q :: 0 <= q < 4 ==>
        r[q].value == if q < Lanes() then sums[q].value + Tap(bufRead[..], Dims(), kernel, x, y, q, i, j) else sums[q].value
    {
      var rowsHalf := |kernel| / 2;
      var colsHalf := Cols(kernel) / 2;
      var edgeX := ClampCoord(x + (j - colsHalf), width);
      var edgeY := ClampCoord(y + (i - rowsHalf), height);
      // `p_x + p_y`, the first sample of the clamped source pixel.
      var start := Offset(Dims(), edgeX, edgeY, 0);
      if channels > 0 {
        OffsetInBounds(Dims(), edgeX, edgeY, channels - 1);
        TapPixel(bufRead[..], Dims(), kernel, x, y, i, j);
      }
      r := WeighPixel(sums, start, kernel[i][j]);
      WeighedIntoAt(sums, bufRead[..], start, kernel[i][j], Lanes());
    }

    /** The zip of `weighted_sum` with the source pixel starting at `start`:
        each slot in use gains its channel times the kernel element `w`. */
    method WeighPixel(sums: seq<Weight>, start: nat, w: real) returns (r: seq<Weight>)
      requires |sums| == 4 && start + Lanes() <= bufRead.Length
      ensures r == WeighedInto(sums, bufRead[..], start, w, Lanes())
    {
      r := sums;
      var ch := 0;
      while ch < Lanes()
        invariant 0 <= ch <= Lanes()
        invariant r == WeighedInto(sums, bufRead[..], start, w, ch)
      {
        r := r[ch := Plus(r[ch], Contribution(bufRead[start + ch], w))];
        ch := ch + 1;
      }
    }

    /** The cells of kernel row `i`, in order. */
    method AccumulateRow(kernel: Kernel, x: nat, y: nat, i: nat, sums: seq<Weight>) returns (r: seq<Weight>)
      requires Valid() && IsMatrix(kernel) && x < width && y < height
      requires i < |kernel| && |sums| == 4
      ensures |r| == 4
      ensures forall q :: 0 <= q < 4 ==>
        r[q].value == if q < Lanes() then sums[q].value + RowSum(bufRead[..], Dims(), kernel, x, y, q, i, Cols(kernel)) else sums[q].value
    {
      r := sums;
      var j := 0;
      while j < Cols(kernel)
        invariant 0 <= j <= Cols(kernel) && |r| == 4
        invariant forall q :: 0 <= q < 4 ==>
          r[q].value == if q < Lanes() then sums[q].value + RowSum(bufRead[..], Dims(), kernel, x, y, q, i, j) else sums[q].value
      {
        r := AccumulateTap(kernel, x, y, i, j, r);
        j := j + 1;
      }
    }

    /** The accumulator `weighted_sum` of one output pixel after the loop over
        `kernel.indexed_iter()`, starting from `[Weight(0.0); 4]`: slot `ch`
        holds the window sum of channel `ch` for the slots in use and stays 0
        otherwise. */
    method AccumulatePixel(kernel: Kernel, x: nat, y: nat) returns (sums: seq<Weight>)
      requires Valid() && IsMatrix(kernel) && x < width && y < height
      ensures |sums| == 4
      ensures forall ch :: 0 <= ch < 4 ==>
        sums[ch].value == if ch < Lanes() then WindowSum(bufRead[..], Dims(), kernel, x, y, ch, |kernel|) else 0.0
    {
      sums := [Weight(0.0), Weight(0.0), Weight(0.0), Weight(0.0)];
      var i := 0;
      while i < |kernel|
        invariant 0 <= i <= |kernel| && |sums| == 4
        invariant forall q :: 0 <= q < 4 ==>
          sums[q].value == if q < Lanes() then WindowSum(bufRead[..], Dims(), kernel, x, y, q, i) else 0.0
      {
        sums := AccumulateRow(kernel, x, y, i, sums);
        i := i + 1;
      }
    }

    /** Writes the slots in use of pixel (x, y) of `buf_write`; the further
        channels of the pixel keep their value, which is also what `expected`
        holds there. */
    method WritePixel(kernel: Kernel, x: nat, y: nat, ghost dst: seq<U8>, ghost expected: seq<U8>)
      requires Valid() && IsMatrix(kernel) && x < width && y < height
      requires |dst| == Size(Dims()) && expected == Convolved(bufRead[..], dst, Dims(), kernel)
      requires WrittenBelow(bufWrite[..], expected, dst, Offset(Dims(), x, y, 0))
      modifies bufWrite
      ensures WrittenBelow(bufWrite[..], expected, dst, Offset(Dims(), x, y, 0) + channels)
    {
      ghost var s := Dims();
      var sums := AccumulatePixel(kernel, x, y);
      var ch := 0;
      while ch < Lanes()
        invariant 0 <= ch <= Lanes()
        invariant WrittenBelow(bufWrite[..], expected, dst, Offset(s, x, y, ch))
      {
        ConvolvedAt(bufRead[..], dst, s, kernel, x, y, ch);
        bufWrite[y * (channels * width) + x * channels + ch] := ToU8(sums[ch]);
        ch := ch + 1;
      }
      if channels > 0 {
        ConvolvedKeepsExtraChannels(bufRead[..], dst, s, kernel, x, y);
      }
    }

    /** `convolve(img, kernel)`: every pixel of `buf_write` gets the clamped
        window sums of `buf_read` in its first four channels; `buf_read` is
        only read. */
    method Convolve(kernel: Kernel)
      requires Valid() && IsMatrix(kernel) && width > 0 && channels > 0
      modifies bufWrite
      ensures bufWrite[..] == Convolved(bufRead[..], old(bufWrite[..]), Dims(), kernel)
    {
      ghost var dst, s := bufWrite[..], Dims();
      ghost var expected := Convolved(bufRead[..], dst, s, kernel);
      var y := 0;
      while y < height
        invariant 0 <= y <= height
        invariant WrittenBelow(bufWrite[..], expected, dst, Offset(s, 0, y, 0))
      {
        var x := 0;
        while x < width
          invariant 0 <= x <= width
          invariant WrittenBelow(bufWrite[..], expected, dst, Offset(s, x, y, 0))
        {
          WritePixel(kernel, x, y, dst, expected);
          assert Offset(s, x + 1, y, 0) == Offset(s, x, y, 0) + channels;
          x := x + 1;
        }
        assert Offset(s, width, y, 0) == Offset(s, 0, y + 1, 0);
        y := y + 1;
      }
      assert Offset(s, 0, height, 0) == bufWrite.Length;
      assert bufWrite[..] == expected;
    }

    /** `buf_read.copy_from_slice(buf_write)`. */
    method CopyWriteToRead()
      requires Valid()
      modifies bufRead
      ensures bufRead[..] == bufWrite[..]
    {
      var t := 0;
      while t < bufRead.Length
        invariant 0 <= t <= bufRead.Length
        invariant forall u :: 0 <= u < t ==> bufRead[u] == bufWrite[u]
      {
        bufRead[t] := bufWrite[t];
        t := t + 1;
      }
    }

    /** `box_blur_1d` and `gaussian_blur_1d`, which differ only in the kernel
        builder: the row pass, the copy into `buf_read`, the column pass. */
    method Blur1D(kx: Kernel, ky: Kernel)
      requires Valid() && IsMatrix(kx) && IsMatrix(ky) && width > 0 && channels > 0
      modifies bufRead, bufWrite
      ensures (bufRead[..], bufWrite[..]) == SeparableBlurred(old(bufRead[..]), old(bufWrite[..]), Dims(), kx, ky)
    {
      Convolve(kx);
      CopyWriteToRead();
      Convolve(ky);
    }

    /** `box_blur_2d` and `gaussian_blur_2d`: one pass with a square kernel;
        `buf_read` keeps its contents. */
    method Blur2D(kernel: Kernel)
      requires Valid() && IsMatrix(kernel) && width > 0 && channels > 0
      modifies bufWrite
      ensures bufRead[..] == old(bufRead[..])
      ensures bufWrite[..] == Convolved(bufRead[..], old(bufWrite[..]), Dims(), kernel)
    {
      Convolve(kernel);
    }

    /** The luma step of `sobel2d`, in place on `buf_read`, one pixel at a time. */
    method LumaInPlace()
      requires Valid() && channels >= 3
      modifies bufRead
      ensures Size(Dims()) % channels == 0
      ensures bufRead[..] == LumaImage(old(bufRead[..]), channels)
    {
      ghost var src := bufRead[..];
      WholePixels(Dims());
      ghost var expected := LumaImage(src, channels);
      var base := 0;
      ghost var pixel := 0;
      while base < bufRead.Length
        invariant 0 <= base <= bufRead.Length && base == pixel * channels
        invariant WrittenBelow(bufRead[..], expected, src, base)
      {
        DivModUnique(base, channels, pixel, 0);
        PixelBase(base, channels, bufRead.Length);
        ghost var before := bufRead[..];
        var luma := Luma(bufRead[base], bufRead[base + 1], bufRead[base + 2]);
        bufRead[base] := luma;
        bufRead[base + 1] := luma;
        bufRead[base + 2] := luma;
        assert bufRead[..] == before[base := luma][base + 1 := luma][base + 2 := luma];
        LumaImagePixel(src, channels, base);
        WrittenPixel(before, expected, src, base, channels, luma);
        assert (pixel + 1) * channels == base + channels;
        base, pixel := base + channels, pixel + 1;
      }
    }

    /** The last step of `sobel2d`: every sample of `buf_write` becomes the
        magnitude of itself and the matching sample of `gy`. */
    method Magnitudes(gy: array<U8>, sqrt: real -> real)
      requires Valid() && gy != bufWrite && gy.Length == bufWrite.Length && channels > 0
      modifies bufWrite
      ensures bufWrite[..] == MagnitudeImage(old(bufWrite[..]), gy[..], sqrt)
    {
      ghost var gx := bufWrite[..];
      ghost var expected := MagnitudeImage(gx, gy[..], sqrt);
      WholePixels(Dims());
      var base := 0;
      while base < bufWrite.Length
        invariant 0 <= base <= bufWrite.Length && base % channels == 0
        invariant WrittenBelow(bufWrite[..], expected, gx, base)
      {
        PixelBase(base, channels, bufWrite.Length);
        var c := 0;
        while c < channels
          invariant 0 <= c <= channels
          invariant WrittenBelow(bufWrite[..], expected, gx, base + c)
        {
          ghost var before := bufWrite[..];
          var m := Magnitude(bufWrite[base + c], gy[base + c], sqrt);
          assert m == expected[base + c];
          bufWrite[base + c] := m;
          assert bufWrite[..] == before[base + c := m];
          WrittenSample(before, expected, gx, base + c);
          c := c + 1;
        }
        DivModUnique(base + channels, channels, base / channels + 1, 0);
        base := base + channels;
      }
      assert bufWrite[..] == expected;
    }

    /** `sobel2d(img, sigma)`: the optional pre-blur and copy, the luma step,
        the x-gradient into `buf_write`, the y-gradient into a copy of
        `buf_read`, then the magnitude of both into `buf_write`. */
    method Sobel2D(pre: PreBlur, kx: Kernel, ky: Kernel, sqrt: real -> real)
      requires Valid() && width > 0 && channels >= 3
      requires PreBlurIsMatrix(pre) && IsMatrix(kx) && IsMatrix(ky)
      modifies bufRead, bufWrite
      ensures (bufRead[..], bufWrite[..]) == SobelResult(old(bufRead[..]), old(bufWrite[..]), Dims(), pre, kx, ky, sqrt)
    {
      ghost var read0, write0 := bufRead[..], bufWrite[..];
      if pre.Blur? {
        Blur1D(pre.kx, pre.ky);
        CopyWriteToRead();
      }
      ghost var blurred := PreBlurred(read0, write0, Dims(), pre);
      assert bufRead[..] == blurred.0 && bufWrite[..] == blurred.1;
      LumaInPlace();
      Convolve(kx);
      var tmp := new U8[bufRead.Length](t requires 0 <= t < bufRead.Length reads bufRead => bufRead[t]);
      assert tmp[..] == bufRead[..];
      var gradientY := new Image(bufRead, tmp, width, height, channels);
      gradientY.Convolve(ky);
      Magnitudes(tmp, sqrt);
    }
  }

  /** `Weight(channel.into() * kernel_element)`, one term of the sum. */
  function Contribution(channel: U8, element: real): Weight
  {
    Weight(channel as real * element)
  }

  /** The accumulator slots after the first `n` steps of the zip of
      `weighted_sum` with the pixel starting at `start`: slot `q` gains
      `pixel[q] * w`. */
  function WeighedInto(sums: seq<Weight>, src: seq<U8>, start: int, w: real, n: nat): (r: seq<Weight>)
    requires n <= |sums| && 0 <= start && start + n <= |src|
    ensures |r| == |sums|
  {
    if n == 0 then sums
    else
      var prev := WeighedInto(sums, src, start, w, n - 1);
      prev[n - 1 := Plus(prev[n - 1], Contribution(src[start + n - 1], w))]
  }

  /** The first `n` slots each gain their own sample times `w`; the others
      are untouched. */
  lemma {:induction false} WeighedIntoAt(sums: seq<Weight>, src: seq<U8>, start: int, w: real, n: nat)
    requires n <= |sums| && 0 <= start && start + n <= |src|
    ensures forall q :: 0 <= q < |sums| ==>
      WeighedInto(sums, src, start, w, n)[q].value
        == if q < n then sums[q].value + src[start + q] as real * w else sums[q].value
  {
    if n > 0 {
      WeighedIntoAt(sums, src, start, w, n - 1);
    }
  }

  /** Writing the grey value of the pixel at `base` extends the written
      prefix by one pixel. */
  lemma WrittenPixel(a: seq<U8>, expected: seq<U8>, original: seq<U8>, base: int, c: int, luma: U8)
    requires WrittenBelow(a, expected, original, base) && 3 <= c && 0 <= base && base + c <= |a|
    requires forall t :: base <= t < base + c ==> expected[t] == if t < base + 3 then luma else original[t]
    ensures WrittenBelow(a[base := luma][base + 1 := luma][base + 2 := luma], expected, original, base + c)
  {
  }

  /** Writing the expected sample at `p` extends the written prefix by one. */
  lemma WrittenSample(a: seq<U8>, expected: seq<U8>, original: seq<U8>, p: int)
    requires WrittenBelow(a, expected, original, p) && 0 <= p < |a|
    ensures WrittenBelow(a[p := expected[p]], expected, original, p + 1)
  {
  }

  /** `a` holds `expected` below position `p` and `original` from `p` on. */
  ghost predicate WrittenBelow(a: seq<U8>, expected: seq<U8>, original: seq<U8>, p: int)
  {
    |a| == |expected| == |original| &&
    forall t :: 0 <= t < |a| ==> a[t] == if t < p then expected[t] else original[t]
  }
}
