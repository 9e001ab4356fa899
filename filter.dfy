/** The older engine of src/filter.rs: `gaussian_1d` and `gaussian_2d` read
    an RGB image and write the blurred pixels into a larger buffer at a crop
    offset. The vertical pass of `gaussian_1d` reads and writes that buffer
    in place, so each output row already sees the rows above it blurred. */
module Filter {
  import opened Samples
  import opened Gaussian
  import FilterKernel

  /** An `Rgb<u8>` pixel. */
  type Rgb = p: seq<U8> | |p| == 3 witness [0, 0, 0]

  /** The pixels of an image as a value, column by column: `pic[x][y]`. */
  type Picture = seq<seq<Rgb>>

  /** What `gaussian_1d` and `gaussian_2d` come to: done, or the panic of the
      kernel builder. */
  datatype Outcome = Done | Failed(error: KernelError)

  predicate IsRect(pic: Picture, w: int, h: int)
  {
    |pic| == w && forall x :: 0 <= x < |pic| ==> |pic[x]| == h
  }

  /** The contents of an `RgbImage`, indexed `[x, y]` like `get_pixel(x, y)`. */
  function Pixels(img: array2<Rgb>): (pic: Picture)
    reads img
    ensures IsRect(pic, img.Length0, img.Length1)
  {
    seq(img.Length0, x requires 0 <= x < img.Length0 reads img =>
      seq(img.Length1, y requires 0 <= y < img.Length1 reads img => img[x, y]))
  }

  /** Row `y` of a picture, as a line of pixels. */
  function RowOf(pic: Picture, h: int, y: int): (line: seq<Rgb>)
    requires IsRect(pic, |pic|, h) && 0 <= y < h
    ensures |line| == |pic|
  {
    seq(|pic|, u requires 0 <= u < |pic| => pic[u][y])
  }

  /** `image::Rgb([sum[0] as u8, sum[1] as u8, sum[2] as u8])`: the pixel
      written from the three channel sums. */
  function RgbOf(red: real, green: real, blue: real): Rgb
  {
    [Saturate(red), Saturate(green), Saturate(blue)]
  }

  /** `(kernel.len() - 1) / 2` for a kernel of `len` entries (or rows). */
  function WindowRadius(len: int): nat
    requires len >= 1
  {
    (len - 1) / 2
  }

  /** Number of taps of the window `x - radius ..= x + radius`: all of the
      kernel when its length is odd, all but the last entry otherwise. */
  function Taps(len: int): (n: nat)
    requires len >= 1
    ensures n <= len && len - 1 <= n
  {
    2 * WindowRadius(len) + 1
  }

  lemma TapsOfOdd(len: int)
    requires len >= 1 && len % 2 == 1
    ensures Taps(len) == len
  {
  }

  /** The first `n` terms `p[c] as f64 * kernel[i]` of the window around
      `pos` on a line, with `p` read at the clamped position. */
  function LineSum(line: seq<Rgb>, k: seq<real>, pos: int, c: int, n: nat): real
    requires |line| >= 1 && |k| >= 1 && 0 <= c < 3 && n <= Taps(|k|)
  {
    if n == 0 then 0.0
    else
      var u := pos - WindowRadius(|k|) + (n - 1);
      LineSum(line, k, pos, c, n - 1) + Weighed(line[ClampCoord(u, |line|)][c], k[n - 1])
  }

  /** The pixel one pass writes for position `pos` of a line: each channel
      `as u8` of its window sum. */
  function Smoothed(line: seq<Rgb>, k: seq<real>, pos: int): Rgb
    requires |line| >= 1 && |k| >= 1
  {
    var n := Taps(|k|);
    RgbOf(LineSum(line, k, pos, 0, n), LineSum(line, k, pos, 1, n), LineSum(line, k, pos, 2, n))
  }

  /** Column `x` of the crop window after the horizontal pass. */
  function RowPassColumn(pic: Picture, h: int, k: seq<real>, x: int): (col: seq<Rgb>)
    requires IsRect(pic, |pic|, h) && |pic| >= 1 && |k| >= 1
    ensures |col| == if h < 0 then 0 else h
  {
    seq(if h < 0 then 0 else h, v requires 0 <= v < h => Smoothed(RowOf(pic, h, v), k, x))
  }

  /** A column after the first `n` steps of the in-place vertical pass: step
      `v` blurs row `v` reading the column as the earlier steps left it. */
  function InPlaceColumn(col: seq<Rgb>, k: seq<real>, n: nat): (r: seq<Rgb>)
    requires n <= |col| && |k| >= 1
    ensures |r| == |col|
    ensures forall v :: n <= v < |col| ==> r[v] == col[v]
  {
    if n == 0 then col
    else
      var prev := InPlaceColumn(col, k, n - 1);
      prev[n - 1 := Smoothed(prev, k, n - 1)]
  }

  /** A row, once the pass has blurred it, is not touched again. */
  lemma {:induction false} InPlaceColumnSettled(col: seq<Rgb>, k: seq<real>, n: nat, m: nat, v: int)
    requires v < n <= m <= |col| && 0 <= v && |k| >= 1
    ensures InPlaceColumn(col, k, m)[v] == InPlaceColumn(col, k, n)[v]
  {
    if m > n {
      InPlaceColumnSettled(col, k, n, m - 1, v);
    }
  }

  /** The read-after-write of the vertical pass: row `v` of the finished
      column is the blur of the column in which rows above `v` are already
      blurred and rows from `v` on are still the horizontal pass's output. */
  lemma InPlaceColumnRow(col: seq<Rgb>, k: seq<real>, v: int)
    requires 0 <= v < |col| && |k| >= 1
    ensures InPlaceColumn(col, k, |col|)[v] == Smoothed(InPlaceColumn(col, k, v), k, v)
    ensures forall u :: v <= u < |col| ==> InPlaceColumn(col, k, v)[u] == col[u]
  {
    InPlaceColumnSettled(col, k, v + 1, |col|, v);
  }

  /** The 3-tap kernel [1/4, 1/2, 1/4] used below. */
  function QuarterKernel(): seq<real>
  {
    [0.25, 0.5, 0.25]
  }

  /** On the two-row column black over white, the in-place vertical pass
      gives 207 in the second row, where a pass that read only the
      horizontal pass's output would give 191: the first row was already
      rewritten to 63 when the second row was read. */
  lemma InPlacePassReadsItsOwnOutput()
    ensures InPlaceColumn([[0, 0, 0], [255, 255, 255]], QuarterKernel(), 1)[0] == [63, 63, 63]
    ensures InPlaceColumn([[0, 0, 0], [255, 255, 255]], QuarterKernel(), 2)[1] == [207, 207, 207]
    ensures Smoothed([[0, 0, 0], [255, 255, 255]], QuarterKernel(), 1) == [191, 191, 191]
  {
    var col: seq<Rgb> := [[0, 0, 0], [255, 255, 255]];
    var k := QuarterKernel();
    assert Taps(|k|) == 3;
    forall c | 0 <= c < 3 ensures LineSum(col, k, 0, c, 3) == 63.75 {
      assert ClampCoord(-1, 2) == 0 && ClampCoord(0, 2) == 0 && ClampCoord(1, 2) == 1;
      assert LineSum(col, k, 0, c, 1) == 0.0;
      assert LineSum(col, k, 0, c, 2) == 0.0;
    }
    var first := InPlaceColumn(col, k, 1);
    assert first == [[63, 63, 63], [255, 255, 255]];
    forall c | 0 <= c < 3 ensures LineSum(first, k, 1, c, 3) == 207.0 {
      assert ClampCoord(0, 2) == 0 && ClampCoord(1, 2) == 1 && ClampCoord(2, 2) == 1;
      assert LineSum(first, k, 1, c, 1) == 15.75;
      assert LineSum(first, k, 1, c, 2) == 143.25;
    }
    forall c | 0 <= c < 3 ensures LineSum(col, k, 1, c, 3) == 191.25 {
      assert ClampCoord(0, 2) == 0 && ClampCoord(1, 2) == 1 && ClampCoord(2, 2) == 1;
      assert LineSum(col, k, 1, c, 1) == 0.0;
      assert LineSum(col, k, 1, c, 2) == 127.5;
    }
  }

  /** The window sum over a uniform line is the colour times the sum of the
      taps used. */
  lemma {:induction false} LineSumUniform(line: seq<Rgb>, k: seq<real>, pos: int, c: int, n: nat, color: Rgb)
    requires |line| >= 1 && |k| >= 1 && 0 <= c < 3 && n <= Taps(|k|)
    requires forall u :: 0 <= u < |line| ==> line[u] == color
    ensures LineSum(line, k, pos, c, n) == color[c] as real * Sum(k[..n])
  {
    if n > 0 {
      LineSumUniform(line, k, pos, c, n - 1, color);
      assert k[..n][..n - 1] == k[..n - 1];
    }
  }

  /** A kernel of odd length whose taps sum to 1 leaves a uniform line as it
      is. */
  lemma SmoothedUniform(line: seq<Rgb>, k: seq<real>, pos: int, color: Rgb)
    requires |line| >= 1 && |k| % 2 == 1 && Sum(k) == 1.0
    requires forall u :: 0 <= u < |line| ==> line[u] == color
    ensures Smoothed(line, k, pos) == color
  {
    TapsOfOdd(|k|);
    var n := Taps(|k|);
    assert k[..n] == k;
    forall c | 0 <= c < 3 ensures Saturate(LineSum(line, k, pos, c, n)) == color[c] {
      LineSumUniform(line, k, pos, c, n, color);
      SaturateOfByte(color[c]);
    }
  }

  lemma SaturateOfByte(v: U8)
    ensures Saturate(v as real) == v
  {
  }

  /** Such a kernel also leaves a uniform column as it is, in place. */
  lemma {:induction false} InPlaceColumnUniform(col: seq<Rgb>, k: seq<real>, n: nat, color: Rgb)
    requires n <= |col| && |k| % 2 == 1 && Sum(k) == 1.0
    requires forall v :: 0 <= v < |col| ==> col[v] == color
    ensures InPlaceColumn(col, k, n) == col
  {
    if n > 0 {
      InPlaceColumnUniform(col, k, n - 1, color);
      SmoothedUniform(col, k, n - 1, color);
    }
  }

  /** Column `x` of the crop window after both passes of `gaussian_1d`. */
  function Blurred1D(pic: Picture, h: nat, k: seq<real>, x: int): (col: seq<Rgb>)
    requires IsRect(pic, |pic|, h) && |pic| >= 1 && |k| >= 1
    ensures |col| == h
  {
    InPlaceColumn(RowPassColumn(pic, h, k, x), k, h)
  }

  /** The horizontal pass maps a uniform image to a uniform column. */
  lemma RowPassColumnOfFlat(pic: Picture, h: nat, k: seq<real>, x: int, color: Rgb)
    requires IsRect(pic, |pic|, h) && |pic| >= 1 && |k| % 2 == 1 && Sum(k) == 1.0
    requires forall u, v :: 0 <= u < |pic| && 0 <= v < h ==> pic[u][v] == color
    ensures forall v :: 0 <= v < h ==> RowPassColumn(pic, h, k, x)[v] == color
  {
    forall v | 0 <= v < h ensures RowPassColumn(pic, h, k, x)[v] == color {
      SmoothedUniform(RowOf(pic, h, v), k, x, color);
    }
  }

  /** `gaussian_1d` with a normalised kernel of odd length writes a uniform
      image back unchanged. */
  lemma Blurred1DOfFlat(pic: Picture, h: nat, k: seq<real>, x: int, color: Rgb)
    requires IsRect(pic, |pic|, h) && |pic| >= 1 && |k| % 2 == 1 && Sum(k) == 1.0
    requires forall u, v :: 0 <= u < |pic| && 0 <= v < h ==> pic[u][v] == color
    ensures Blurred1D(pic, h, k, x) == seq(h, _ => color)
  {
    var col := RowPassColumn(pic, h, k, x);
    RowPassColumnOfFlat(pic, h, k, x, color);
    InPlaceColumnUniform(col, k, h, color);
  }

  /** The first `n` rows of the `gaussian_2d` window around `(x, y)`: row `j`
      reads image row `clamp(y - radius + j)` and weighs it by `kernel[j]`. */
  function PlaneSum(pic: Picture, h: int, k: seq<seq<real>>, x: int, y: int, c: int, n: nat): real
    requires IsRect(pic, |pic|, h) && |pic| >= 1 && h >= 1
    requires |k| >= 1 && forall j :: 0 <= j < |k| ==> |k[j]| == |k|
    requires 0 <= c < 3 && n <= Taps(|k|)
  {
    if n == 0 then 0.0 else PlaneSum(pic, h, k, x, y, c, n - 1) + PlaneRow(pic, h, k, x, y, c, n - 1)
  }

  /** Row `j` of that window: image row `clamp(y - radius + j)` weighed by
      `kernel[j]`. */
  function PlaneRow(pic: Picture, h: int, k: seq<seq<real>>, x: int, y: int, c: int, j: int): real
    requires IsRect(pic, |pic|, h) && |pic| >= 1 && h >= 1
    requires 0 <= j < |k| && |k[j]| >= 1 && 0 <= c < 3
  {
    LineSum(RowOf(pic, h, ClampCoord(y - WindowRadius(|k|) + j, h)), k[j], x, c, Taps(|k[j]|))
  }

  /** The pixel `gaussian_2d` writes for position `(x, y)` of the image. */
  function Smoothed2D(pic: Picture, h: int, k: seq<seq<real>>, x: int, y: int): Rgb
    requires IsRect(pic, |pic|, h) && |pic| >= 1 && h >= 1
    requires |k| >= 1 && forall j :: 0 <= j < |k| ==> |k[j]| == |k|
  {
    var n := Taps(|k|);
    RgbOf(PlaneSum(pic, h, k, x, y, 0, n), PlaneSum(pic, h, k, x, y, 1, n), PlaneSum(pic, h, k, x, y, 2, n))
  }

  /** One row of the window over a uniform picture, weighed by a kernel row
      of odd length. */
  lemma PlaneRowUniform(pic: Picture, h: int, k: seq<seq<real>>, x: int, y: int, c: int, j: int, color: Rgb)
    requires IsRect(pic, |pic|, h) && |pic| >= 1 && h >= 1
    requires 0 <= j < |k| && |k[j]| % 2 == 1 && 0 <= c < 3
    requires forall u, v :: 0 <= u < |pic| && 0 <= v < h ==> pic[u][v] == color
    ensures PlaneRow(pic, h, k, x, y, c, j) == color[c] as real * Sum(k[j])
  {
    var row := k[j];
    TapsOfOdd(|row|);
    assert row[..Taps(|row|)] == row;
    var line := RowOf(pic, h, ClampCoord(y - WindowRadius(|k|) + j, h));
    LineSumUniform(line, row, x, c, Taps(|row|), color);
  }

  /** The entries of the first `n` rows of a kernel, summed row by row. */
  function RowsTotal(m: seq<seq<real>>, n: nat): real
    requires n <= |m|
  {
    if n == 0 then 0.0 else RowsTotal(m, n - 1) + Sum(m[n - 1])
  }

  lemma {:induction false} RowsTotalIsSumAll(m: seq<seq<real>>, n: nat)
    requires n <= |m|
    ensures RowsTotal(m, n) == SumAll(m[..n])
  {
    if n > 0 {
      RowsTotalIsSumAll(m, n - 1);
      assert m[..n][..n - 1] == m[..n - 1];
    }
  }

  /** `f` times the weights of each of the first `n` kernel rows, summed
      row by row. */
  function ScaledRowsTotal(k: seq<seq<real>>, n: nat, f: real): real
    requires n <= |k|
  {
    if n == 0 then 0.0 else ScaledRowsTotal(k, n - 1, f) + f * Sum(k[n - 1])
  }

  lemma {:induction false} ScaledRowsTotalIsScaled(k: seq<seq<real>>, n: nat, f: real)
    requires n <= |k|
    ensures ScaledRowsTotal(k, n, f) == f * RowsTotal(k, n)
  {
    if n > 0 {
      ScaledRowsTotalIsScaled(k, n - 1, f);
      AddScaled(ScaledRowsTotal(k, n, f), ScaledRowsTotal(k, n - 1, f), f * Sum(k[n - 1]),
        f, RowsTotal(k, n), RowsTotal(k, n - 1), Sum(k[n - 1]));
    }
  }

  /** With weights summing to 1, the scaled total is the factor itself. */
  lemma ScaledTotalOfNormalized(k: seq<seq<real>>, f: real)
    requires SumAll(k) == 1.0
    ensures ScaledRowsTotal(k, |k|, f) == f
  {
    ScaledRowsTotalIsScaled(k, |k|, f);
    RowsTotalIsSumAll(k, |k|);
    assert k[..|k|] == k;
    assert RowsTotal(k, |k|) == 1.0;
  }

  /** A window whose every row `j` sums to `f` times the weights of kernel
      row `j`. */
  lemma {:induction false} PlaneSumOfScaledRows(pic: Picture, h: int, k: seq<seq<real>>, x: int, y: int, c: int, n: nat, f: real)
    requires IsRect(pic, |pic|, h) && |pic| >= 1 && h >= 1
    requires |k| >= 1 && forall j :: 0 <= j < |k| ==> |k[j]| == |k|
    requires 0 <= c < 3 && n <= Taps(|k|)
    requires forall j :: 0 <= j < n ==> PlaneRow(pic, h, k, x, y, c, j) == f * Sum(k[j])
    ensures PlaneSum(pic, h, k, x, y, c, n) == ScaledRowsTotal(k, n, f)
  {
    if n > 0 {
      PlaneSumOfScaledRows(pic, h, k, x, y, c, n - 1, f);
    }
  }

  /** `gaussian_2d` with a square kernel of odd size whose entries sum to 1
      writes a uniform image back unchanged. */
  lemma Smoothed2DOfFlat(pic: Picture, h: int, k: seq<seq<real>>, x: int, y: int, color: Rgb)
    requires IsRect(pic, |pic|, h) && |pic| >= 1 && h >= 1
    requires |k| % 2 == 1 && forall j :: 0 <= j < |k| ==> |k[j]| == |k|
    requires SumAll(k) == 1.0
    requires forall u, v :: 0 <= u < |pic| && 0 <= v < h ==> pic[u][v] == color
    ensures Smoothed2D(pic, h, k, x, y) == color
  {
    forall c | 0 <= c < 3 ensures Saturate(PlaneSum(pic, h, k, x, y, c, Taps(|k|))) == color[c] {
      PlaneSumOfFlat(pic, h, k, x, y, c, color);
      SaturateOfByte(color[c]);
    }
  }

  /** One channel of the window sum over a uniform picture. */
  lemma PlaneSumOfFlat(pic: Picture, h: int, k: seq<seq<real>>, x: int, y: int, c: int, color: Rgb)
    requires IsRect(pic, |pic|, h) && |pic| >= 1 && h >= 1
    requires |k| % 2 == 1 && forall j :: 0 <= j < |k| ==> |k[j]| == |k|
    requires SumAll(k) == 1.0 && 0 <= c < 3
    requires forall u, v :: 0 <= u < |pic| && 0 <= v < h ==> pic[u][v] == color
    ensures PlaneSum(pic, h, k, x, y, c, Taps(|k|)) == color[c] as real
  {
    TapsOfOdd(|k|);
    forall j | 0 <= j < |k| ensures PlaneRow(pic, h, k, x, y, c, j) == color[c] as real * Sum(k[j]) {
      PlaneRowUniform(pic, h, k, x, y, c, j, color);
    }
    PlaneSumOfScaledRows(pic, h, k, x, y, c, |k|, color[c] as real);
    ScaledTotalOfNormalized(k, color[c] as real);
  }

  /** Column `X` of an image from row `cy` on, `h` rows long. */
  function ColumnOf(buf: array2<Rgb>, X: int, cy: int, h: int): (col: seq<Rgb>)
    requires 0 <= X < buf.Length0 && 0 <= cy && 0 <= h && cy + h <= buf.Length1
    reads buf
    ensures |col| == h
  {
    seq(h, v requires 0 <= v < h reads buf => buf[X, cy + v])
  }

  /** `(x, y)` lies in the `w` by `h` window placed at `(cx, cy)`. */
  predicate InWindow(X: int, Y: int, cx: int, cy: int, w: int, h: int)
  {
    cx <= X < cx + w && cy <= Y < cy + h
  }

  /** Adds the window of `line` around `pos` to the three running sums, as
      the innermost loop of both engines does. */
  method AccumulateLine(line: seq<Rgb>, k: seq<real>, pos: int, red0: real, green0: real, blue0: real)
    returns (red: real, green: real, blue: real)
    requires |line| >= 1 && |k| >= 1
    ensures red == red0 + LineSum(line, k, pos, 0, Taps(|k|))
    ensures green == green0 + LineSum(line, k, pos, 1, Taps(|k|))
    ensures blue == blue0 + LineSum(line, k, pos, 2, Taps(|k|))
  {
    var radius := WindowRadius(|k|);
    red, green, blue := red0, green0, blue0;
    var u := pos - radius;
    var i := 0;
    while u <= pos + radius
      invariant i == u - (pos - radius) && 0 <= i <= Taps(|k|)
      invariant red == red0 + LineSum(line, k, pos, 0, i)
      invariant green == green0 + LineSum(line, k, pos, 1, i)
      invariant blue == blue0 + LineSum(line, k, pos, 2, i)
    {
      var p := line[ClampCoord(u, |line|)];
      red := red + Weighed(p[0], k[i]);
      green := green + Weighed(p[1], k[i]);
      blue := blue + Weighed(p[2], k[i]);
      u := u + 1;
      i := i + 1;
    }
  }

  /** One pixel of the horizontal pass: the window around `x` on row `y`
      of `img`. */
  method RowSample(img: array2<Rgb>, k: seq<real>, x: int, y: int) returns (p: Rgb)
    requires img.Length0 >= 1 && |k| >= 1 && 0 <= y < img.Length1
    ensures p == Smoothed(RowOf(Pixels(img), img.Length1, y), k, x)
  {
    var line := seq(img.Length0, u requires 0 <= u < img.Length0 reads img => img[u, y]);
    assert line == RowOf(Pixels(img), img.Length1, y);
    var red, green, blue := AccumulateLine(line, k, x, 0.0, 0.0, 0.0);
    p := RgbOf(red, green, blue);
  }

  /** One pixel of the vertical pass: the window around row `y` of the
      column `X` of `buf`, read as `buf` is now. */
  method ColumnSample(buf: array2<Rgb>, k: seq<real>, X: int, cy: int, h: int, y: int) returns (p: Rgb)
    requires 0 <= X < buf.Length0 && 0 <= cy && 1 <= h && cy + h <= buf.Length1 && |k| >= 1
    ensures p == Smoothed(ColumnOf(buf, X, cy, h), k, y)
  {
    var line := ColumnOf(buf, X, cy, h);
    var red, green, blue := AccumulateLine(line, k, y, 0.0, 0.0, 0.0);
    p := RgbOf(red, green, blue);
  }

  /** The horizontal pass over one column `x` of the crop window. */
  method RowPassAt(img: array2<Rgb>, cx: int, cy: int, buf: array2<Rgb>, k: seq<real>, x: int)
    requires img != buf && |k| >= 1 && 0 <= x < img.Length0
    requires 0 <= cx && 0 <= cy && cx + img.Length0 <= buf.Length0 && cy + img.Length1 <= buf.Length1
    modifies buf
    ensures forall X, Y :: 0 <= X < buf.Length0 && 0 <= Y < buf.Length1 ==>
      buf[X, Y] == if X == cx + x && cy <= Y < cy + img.Length1
                   then Smoothed(RowOf(Pixels(img), img.Length1, Y - cy), k, x)
                   else old(buf[X, Y])
  {
    ghost var pic := Pixels(img);
    var y := 0;
    while y < img.Length1
      invariant 0 <= y <= img.Length1
      invariant forall X, Y :: 0 <= X < buf.Length0 && 0 <= Y < buf.Length1 ==>
        buf[X, Y] == if X == cx + x && cy <= Y < cy + y
                     then Smoothed(RowOf(pic, img.Length1, Y - cy), k, x)
                     else old(buf[X, Y])
    {
      var p := RowSample(img, k, x, y);
      buf[x + cx, y + cy] := p;
      y := y + 1;
    }
  }

  /** The first loop nest of `gaussian_1d`: every pixel of the crop window
      gets the horizontal blur of `img`. */
  method RowPass(img: array2<Rgb>, cx: int, cy: int, buf: array2<Rgb>, k: seq<real>)
    requires img != buf && |k| >= 1
    requires 0 <= cx && 0 <= cy && cx + img.Length0 <= buf.Length0 && cy + img.Length1 <= buf.Length1
    modifies buf
    ensures forall X, Y :: 0 <= X < buf.Length0 && 0 <= Y < buf.Length1 ==>
      buf[X, Y] == if InWindow(X, Y, cx, cy, img.Length0, img.Length1)
                   then Smoothed(RowOf(Pixels(img), img.Length1, Y - cy), k, X - cx)
                   else old(buf[X, Y])
  {
    var x := 0;
    while x < img.Length0
      invariant 0 <= x <= img.Length0
      invariant forall X, Y :: 0 <= X < buf.Length0 && 0 <= Y < buf.Length1 ==>
        buf[X, Y] == if InWindow(X, Y, cx, cy, x, img.Length1)
                     then Smoothed(RowOf(Pixels(img), img.Length1, Y - cy), k, X - cx)
                     else old(buf[X, Y])
    {
      RowPassAt(img, cx, cy, buf, k, x);
      x := x + 1;
    }
  }

  /** The vertical pass over column `X` of `buf`, in place: row `y` is
      blurred from the column as the rows above it have already been
      rewritten. */
  method ColumnPassAt(buf: array2<Rgb>, k: seq<real>, X: int, cy: int, h: int)
    requires 0 <= X < buf.Length0 && 0 <= cy && 0 <= h && cy + h <= buf.Length1 && |k| >= 1
    modifies buf
    ensures forall X', Y :: 0 <= X' < buf.Length0 && 0 <= Y < buf.Length1 ==>
      buf[X', Y] == if X' == X && cy <= Y < cy + h
                    then InPlaceColumn(old(ColumnOf(buf, X, cy, h)), k, h)[Y - cy]
                    else old(buf[X', Y])
  {
    ghost var col := ColumnOf(buf, X, cy, h);
    var y := 0;
    while y < h
      invariant 0 <= y <= h
      invariant forall X', Y :: 0 <= X' < buf.Length0 && 0 <= Y < buf.Length1 && !(X' == X && cy <= Y < cy + h) ==>
        buf[X', Y] == old(buf[X', Y])
      invariant ColumnOf(buf, X, cy, h) == InPlaceColumn(col, k, y)
    {
      ghost var now := ColumnOf(buf, X, cy, h);
      var p := ColumnSample(buf, k, X, cy, h, y);
      buf[X, y + cy] := p;
      assert ColumnOf(buf, X, cy, h) == now[y := p];
      y := y + 1;
    }
    ghost var final := ColumnOf(buf, X, cy, h);
    forall X', Y | 0 <= X' < buf.Length0 && 0 <= Y < buf.Length1
      ensures buf[X', Y] == if X' == X && cy <= Y < cy + h then InPlaceColumn(col, k, h)[Y - cy] else old(buf[X', Y])
    {
      if X' == X && cy <= Y < cy + h {
        assert buf[X, Y] == final[Y - cy];
      }
    }
  }

  /** The second loop nest of `gaussian_1d`, column after column. */
  method ColumnPass(buf: array2<Rgb>, k: seq<real>, cx: int, cy: int, w: int, h: int)
    requires 0 <= cx && 0 <= cy && 0 <= w && 0 <= h && cx + w <= buf.Length0 && cy + h <= buf.Length1
    requires |k| >= 1
    modifies buf
    ensures forall X, Y :: 0 <= X < buf.Length0 && 0 <= Y < buf.Length1 ==>
      buf[X, Y] == if InWindow(X, Y, cx, cy, w, h)
                   then InPlaceColumn(old(ColumnOf(buf, X, cy, h)), k, h)[Y - cy]
                   else old(buf[X, Y])
  {
    var x := 0;
    while x < w
      invariant 0 <= x <= w
      invariant forall X, Y :: 0 <= X < buf.Length0 && 0 <= Y < buf.Length1 ==>
        buf[X, Y] == if InWindow(X, Y, cx, cy, x, h)
                     then InPlaceColumn(old(ColumnOf(buf, X, cy, h)), k, h)[Y - cy]
                     else old(buf[X, Y])
    {
      assert ColumnOf(buf, cx + x, cy, h) == old(ColumnOf(buf, cx + x, cy, h));
      ColumnPassAt(buf, k, cx + x, cy, h);
      x := x + 1;
    }
  }

  /** `gaussian_1d`: build the kernel for `sigma` (panicking on a sigma that
      is not positive), blur every row of `img` into the crop window of
      `buf`, then blur every column of that window in place. */
  method Gaussian1D(img: array2<Rgb>, cropX: int, cropY: int, buf: array2<Rgb>, sigma: real, exp: real -> real)
    returns (outcome: Outcome)
    requires img != buf && PositiveFunction(exp)
    requires 0 <= cropX && 0 <= cropY && cropX + img.Length0 <= buf.Length0 && cropY + img.Length1 <= buf.Length1
    modifies buf
    ensures outcome.Failed? <==> sigma <= 0.0
    ensures outcome.Failed? ==> unchanged(buf)
    ensures outcome.Done? ==> forall X, Y :: 0 <= X < buf.Length0 && 0 <= Y < buf.Length1 ==>
      buf[X, Y] == if InWindow(X, Y, cropX, cropY, img.Length0, img.Length1)
                   then Blurred1D(Pixels(img), img.Length1, NormalizedRow(sigma, exp), X - cropX)[Y - cropY]
                   else old(buf[X, Y])
  {
    var kernel := FilterKernel.GaussianKernel1D(sigma, exp);
    if kernel.Panic? {
      return Failed(kernel.error);
    }
    var k := kernel.value;
    RowPass(img, cropX, cropY, buf, k);
    forall X | cropX <= X < cropX + img.Length0
      ensures ColumnOf(buf, X, cropY, img.Length1) == RowPassColumn(Pixels(img), img.Length1, k, X - cropX)
    {
    }
    ColumnPass(buf, k, cropX, cropY, img.Length0, img.Length1);
    outcome := Done;
  }

  /** Row `j` of the window of `gaussian_2d` around `(x, y)`, added to the
      running channel sums. */
  method AccumulatePlaneRow(img: array2<Rgb>, k: seq<seq<real>>, x: int, y: int, j: int,
                            red0: real, green0: real, blue0: real)
    returns (red: real, green: real, blue: real)
    requires img.Length0 >= 1 && img.Length1 >= 1
    requires 0 <= j < |k| && |k[j]| >= 1
    ensures red == red0 + PlaneRow(Pixels(img), img.Length1, k, x, y, 0, j)
    ensures green == green0 + PlaneRow(Pixels(img), img.Length1, k, x, y, 1, j)
    ensures blue == blue0 + PlaneRow(Pixels(img), img.Length1, k, x, y, 2, j)
  {
    var vc := ClampCoord(y - WindowRadius(|k|) + j, img.Length1);
    var line := seq(img.Length0, u requires 0 <= u < img.Length0 reads img => img[u, vc]);
    assert line == RowOf(Pixels(img), img.Length1, vc);
    red, green, blue := AccumulateLine(line, k[j], x, red0, green0, blue0);
  }

  /** Adding row `j` of the window extends the row-by-row sum by one row. */
  lemma PlaneSumStep(pic: Picture, h: int, k: seq<seq<real>>, x: int, y: int, j: nat)
    requires IsRect(pic, |pic|, h) && |pic| >= 1 && h >= 1
    requires |k| >= 1 && forall i :: 0 <= i < |k| ==> |k[i]| == |k|
    requires j < Taps(|k|)
    ensures forall c :: 0 <= c < 3 ==>
      PlaneSum(pic, h, k, x, y, c, j + 1) == PlaneSum(pic, h, k, x, y, c, j) + PlaneRow(pic, h, k, x, y, c, j)
  {
  }

  /** One pixel of `gaussian_2d`: the square window around `(x, y)`, row by
      row, with both coordinates clamped to the image. */
  method PlaneSample(img: array2<Rgb>, k: seq<seq<real>>, x: int, y: int) returns (p: Rgb)
    requires img.Length0 >= 1 && img.Length1 >= 1
    requires |k| >= 1 && forall j :: 0 <= j < |k| ==> |k[j]| == |k|
    ensures p == Smoothed2D(Pixels(img), img.Length1, k, x, y)
  {
    ghost var pic := Pixels(img);
    var radius := WindowRadius(|k|);
    var red, green, blue := 0.0, 0.0, 0.0;
    ghost var n := Taps(|k|);
    assert n == 2 * radius + 1;
    var v := y - radius;
    var j := 0;
    while v <= y + radius
      invariant j == v - (y - radius) && 0 <= j <= n
      invariant red == PlaneSum(pic, img.Length1, k, x, y, 0, j)
      invariant green == PlaneSum(pic, img.Length1, k, x, y, 1, j)
      invariant blue == PlaneSum(pic, img.Length1, k, x, y, 2, j)
    {
      PlaneSumStep(pic, img.Length1, k, x, y, j);
      red, green, blue := AccumulatePlaneRow(img, k, x, y, j, red, green, blue);
      v := v + 1;
      j := j + 1;
    }
    assert j == n;
    p := RgbOf(red, green, blue);
  }

  /** `gaussian_2d` over one column `x` of the crop window. */
  method PlanePassAt(img: array2<Rgb>, cx: int, cy: int, buf: array2<Rgb>, k: seq<seq<real>>, x: int)
    requires img != buf && 0 <= x < img.Length0
    requires |k| >= 1 && forall j :: 0 <= j < |k| ==> |k[j]| == |k|
    requires 0 <= cx && 0 <= cy && cx + img.Length0 <= buf.Length0 && cy + img.Length1 <= buf.Length1
    modifies buf
    ensures forall X, Y :: 0 <= X < buf.Length0 && 0 <= Y < buf.Length1 ==>
      buf[X, Y] == if X == cx + x && cy <= Y < cy + img.Length1
                   then Smoothed2D(Pixels(img), img.Length1, k, x, Y - cy)
                   else old(buf[X, Y])
  {
    ghost var pic := Pixels(img);
    var y := 0;
    while y < img.Length1
      invariant 0 <= y <= img.Length1
      invariant forall X, Y :: 0 <= X < buf.Length0 && 0 <= Y < buf.Length1 ==>
        buf[X, Y] == if X == cx + x && cy <= Y < cy + y
                     then Smoothed2D(pic, img.Length1, k, x, Y - cy)
                     else old(buf[X, Y])
    {
      var p := PlaneSample(img, k, x, y);
      buf[x + cx, y + cy] := p;
      y := y + 1;
    }
  }

  /** `gaussian_2d`: build the square kernel for `sigma` (panicking on a
      sigma that is not positive) and write the 2D blur of `img` into the
      crop window of `buf`; `img` is the only image read. */
  method Gaussian2D(img: array2<Rgb>, cropX: int, cropY: int, buf: array2<Rgb>, sigma: real, exp: real -> real)
    returns (outcome: Outcome)
    requires img != buf && PositiveFunction(exp)
    requires 0 <= cropX && 0 <= cropY && cropX + img.Length0 <= buf.Length0 && cropY + img.Length1 <= buf.Length1
    modifies buf
    ensures outcome.Failed? <==> sigma <= 0.0
    ensures outcome.Failed? ==> unchanged(buf)
    ensures outcome.Done? ==> forall X, Y :: 0 <= X < buf.Length0 && 0 <= Y < buf.Length1 ==>
      buf[X, Y] == if InWindow(X, Y, cropX, cropY, img.Length0, img.Length1)
                   then Smoothed2D(Pixels(img), img.Length1, NormalizedSquare(sigma, exp), X - cropX, Y - cropY)
                   else old(buf[X, Y])
  {
    var kernel := FilterKernel.GaussianKernel2D(sigma, exp);
    if kernel.Panic? {
      return Failed(kernel.error);
    }
    PlanePass(img, cropX, cropY, buf, kernel.value);
    outcome := Done;
  }

  /** The loop nest of `gaussian_2d`: every pixel of the crop window gets
      the 2D blur of `img`. */
  method PlanePass(img: array2<Rgb>, cx: int, cy: int, buf: array2<Rgb>, k: seq<seq<real>>)
    requires img != buf && |k| >= 1 && forall j :: 0 <= j < |k| ==> |k[j]| == |k|
    requires 0 <= cx && 0 <= cy && cx + img.Length0 <= buf.Length0 && cy + img.Length1 <= buf.Length1
    modifies buf
    ensures forall X, Y :: 0 <= X < buf.Length0 && 0 <= Y < buf.Length1 ==>
      buf[X, Y] == if InWindow(X, Y, cx, cy, img.Length0, img.Length1)
                   then Smoothed2D(Pixels(img), img.Length1, k, X - cx, Y - cy)
                   else old(buf[X, Y])
  {
    var x := 0;
    while x < img.Length0
      invariant 0 <= x <= img.Length0
      invariant forall X, Y :: 0 <= X < buf.Length0 && 0 <= Y < buf.Length1 ==>
        buf[X, Y] == if InWindow(X, Y, cx, cy, x, img.Length1)
                     then Smoothed2D(Pixels(img), img.Length1, k, X - cx, Y - cy)
                     else old(buf[X, Y])
    {
      PlanePassAt(img, cx, cy, buf, k, x);
      x := x + 1;
    }
  }

  /** With the kernel `gaussian_1d` builds, a uniform image comes out of
      both passes unchanged. */
  lemma GaussianBlur1DKeepsFlatImage(pic: Picture, h: nat, sigma: real, exp: real -> real, x: int, color: Rgb)
    requires sigma > 0.0 && PositiveFunction(exp)
    requires IsRect(pic, |pic|, h) && |pic| >= 1
    requires forall u, v :: 0 <= u < |pic| && 0 <= v < h ==> pic[u][v] == color
    ensures Blurred1D(pic, h, NormalizedRow(sigma, exp), x) == seq(h, _ => color)
  {
    NormalizedRowProperties(sigma, exp);
    Blurred1DOfFlat(pic, h, NormalizedRow(sigma, exp), x, color);
  }

  /** With the kernel `gaussian_2d` builds, a uniform image comes out
      unchanged. */
  lemma GaussianBlur2DKeepsFlatImage(pic: Picture, h: int, sigma: real, exp: real -> real, x: int, y: int, color: Rgb)
    requires sigma > 0.0 && PositiveFunction(exp)
    requires IsRect(pic, |pic|, h) && |pic| >= 1 && h >= 1
    requires forall u, v :: 0 <= u < |pic| && 0 <= v < h ==> pic[u][v] == color
    ensures Smoothed2D(pic, h, NormalizedSquare(sigma, exp), x, y) == color
  {
    var k := NormalizedSquare(sigma, exp);
    NormalizedSquareProperties(sigma, exp);
    assert |k| % 2 == 1;
    Smoothed2DOfFlat(pic, h, k, x, y, color);
  }
}
