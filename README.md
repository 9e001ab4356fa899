# image-filter: a verified model of the convolution engine

This project models the convolution core of `image-filter`, a Rust program
that blurs images and finds their edges. It covers two engines:

- **The `filters` crate engine** (filters/src/lib.rs). An `Image` holds a
  read buffer, a write buffer, a width, a height and a channel count, with
  samples stored row-major and interleaved. `convolve` writes, for every
  pixel, the kernel-weighted sum of its window into the write buffer. Window
  coordinates are clamped to the image border. Each sum is clamped to
  [0, 255] and truncated.
  - `box_blur_1d` and `gaussian_blur_1d` are separable: a row pass, a copy of
    the write buffer into the read buffer, then a column pass.
  - `box_blur_2d` and `gaussian_blur_2d` make one full 2D pass.
  - `sobel2d` runs an optional Gaussian pre-blur, rewrites the read buffer to
    luma in place, takes an x-gradient into the write buffer and a
    y-gradient into a copy, then combines the two into the gradient
    magnitude.
- **The application's older engine** (src/filter.rs). It works on RGB
  images. `gaussian_1d` blurs the rows of the input into a crop window of a
  larger buffer, then blurs the columns of that window *in place*:
  - each row of the second pass reads rows above it that this same pass has
    already rewritten;
  - the model reproduces this exactly, and `Filter.InPlacePassReadsItsOwnOutput`
    shows it on a two-pixel column.

  `gaussian_2d` reads only the input image.
- **The Gaussian kernel builders** of filters/src/kernel.rs and
  src/filter/kernel.rs:
  - they panic when sigma is not positive;
  - the radius is `ceil(sigma) * 3`;
  - each entry is `exp(-(x² + y²) / (2σ²))`;
  - the kernel is divided by its left-folded sum.

Modules:

| module | file | models |
|---|---|---|
| `Samples` | samples.dfy | the `f as u8` cast, coordinate clamping |
| `Weights` | weights.dfy | `Weight`, how it converts to `u8`, and `+=` |
| `Convolution` | convolution.dfy | `convolve` and the separable pipeline, as functions on buffer contents |
| `Edges` | edges.dfy | luma, gradient magnitude, and the whole `sobel2d` result as a function |
| `Filters` | filters.dfy | class `Image` and its methods, each proved equal to those functions |
| `Gaussian` | gaussian.dfy | the shared kernel arithmetic and the kernel-filling loops |
| `FiltersKernel` | filters_kernel.dfy | filters/src/kernel.rs |
| `FilterKernel` | filter_kernel.dfy | src/filter/kernel.rs |
| `Filter` | filter.dfy | src/filter.rs over `array2` images |

Modelling conventions:

- Samples are `U8` (0..255). Sums are exact `real`s.
- `exp` and `sqrt` are function parameters. `exp` must be positive everywhere. `sqrt` must be a non-negative square root at the value it is applied to, wherever a lemma needs that.
- In the kernel builders and in src/filter.rs, Rust panics become an `Outcome` or `Result` value (`Failed`, `Panic`), and the output buffer is then left unchanged. The exception is the crop-window bound of `get_pixel_mut` in src/filter.rs, which is a precondition (see "## Left out").
- In the `filters` crate, panics become preconditions of the `Image` methods:
  - the `unwrap` of filters/src/lib.rs:410 is excluded by `Valid()`, which requires both buffers to hold `width * height * channels` samples;
  - `par_chunks_mut(0)` and `par_chunks_exact_mut(0)` are excluded by `channels > 0` (and `width > 0` for the row chunks);
  - the luma step's `p[2]` is excluded by `channels >= 3`.

Two points worth knowing about the code:

- The separable and the 2D blur are not equal up to float rounding. The row
  pass truncates every sample to `u8` before the column pass reads it.
  `Convolution.SeparableDiffersFrom2D` shows this on the one-channel 2×2
  image [1, 0, 2, 1] with the radius-1 box kernels: the separable blur writes
  0 at pixel (0, 0), the 2D blur writes 1.
- Only channels 0..3 are rewritten by `convolve`, because its accumulator has
  four slots. Further channels keep the value the write buffer had.

## Model

| member | source | states |
|---|---|---|
| Samples.Saturate | src/filter.rs:28 | `f as u8`: 0 for values at or below 0, 255 at or above 255, otherwise the integer part (value − 1 < result ≤ value) |
| Samples.ClampCoord | src/filter.rs:18 | `v.min(n − 1).max(0)` lies in [0, n − 1], is `v` inside the range, 0 to the left and n − 1 to the right |
| Weights.ToU8 | filters/src/lib.rs:21-25 | `Weight` into `u8` is clamping to [0, 255] and truncating: equal to `Saturate` of the value, with 0 below and 255 above the range |
| Weights.ToU8OfByte | filters/src/lib.rs:429-435 | every byte value converted to a `Weight` and back comes out as itself |
| Weights.Plus | filters/src/lib.rs:27-31 | `+=` on weights: the weight of the sum of both values, exact (no `f32` rounding) |
| Weights.PlusOfBytes | filters/src/lib.rs:455-465 | `+=` on two whole-number weights gives the weight of their integer sum |
| Convolution.OffsetInBounds | filters/src/lib.rs:406-410 | for clamped coordinates `p_x + p_y + ch` addresses a sample inside the buffer, so `get(..).unwrap()` cannot fail |
| Convolution.OffsetDecompose | filters/src/lib.rs:385-395 | a flat sample index determines the pixel's x, y and channel that the chunked iteration assigns it |
| Convolution.Convolved | filters/src/lib.rs:383-421 | the whole write buffer after `convolve`, as long as the old one: channels 0..3 of each pixel hold the clamped, truncated window sum, further channels the old sample (per sample in `Convolution.ConvolvedAt`) |
| Convolution.ConvolvedAt | filters/src/lib.rs:367-422 | each sample after `convolve` is the clamped, truncated row-major sum of weight × clamped source sample for channels < 4, and the old write-buffer sample otherwise |
| Convolution.ConvolvedKeepsExtraChannels | filters/src/lib.rs:412-419 | channels from 4 on are not touched by `convolve` (the zip stops at the four accumulator slots) |
| Convolution.BlurFixesUniform | filters/src/lib.rs:367-422 | a kernel whose weights sum to 1 maps a single-colour image with at most four channels to itself |
| Convolution.GradientOfUniformIsZero | filters/src/lib.rs:367-422 | a kernel whose weights sum to 0 maps a single-colour image to 0 in channels 0..3 |
| Convolution.IdentityKernelCopies | filters/src/lib.rs:396-419 | the 1×1 kernel [[1]] copies channels 0..3 of every pixel |
| Convolution.SeparableBlurred | filters/src/lib.rs:33-48 | the separable pipeline leaves both buffers with the image's size; the read buffer holds the row pass, the write buffer the column pass of it |
| Convolution.SeparableBlurFixesUniform | filters/src/lib.rs:281-296 | two blur passes (each summing to 1) leave a single-colour image in both buffers |
| Convolution.ThirdsRowWindow | filters/src/lib.rs:469-503 | on the 3×1 test row (black, white, black) every window of the radius-1 box row kernel sums to exactly 85 |
| Convolution.RowPassOfTestRow | filters/src/lib.rs:469-503 | the row pass of that test already gives 85 in all nine samples |
| Convolution.ColumnPassOfFlatRow | filters/src/lib.rs:469-503 | the column pass then keeps all nine samples at 85 |
| Convolution.BoxBlurTestRow | filters/src/lib.rs:469-503 | `box_blur_1d` with radius 1 writes 85 into all nine samples of the test row, as the unit test expects |
| Convolution.SmallSquareSeparable | filters/src/lib.rs:33-48 | the separable radius-1 box blur (row kernel 1/3 × 3, column kernel 1/3 × 3) of the one-channel 2×2 image [1, 0, 2, 1] writes 0 into all four samples: the row pass truncates 2/3, 1/3, 5/3, 4/3 to 0, 0, 1, 1, and the column pass truncates 1/3 and 2/3 to 0 |
| Convolution.SmallSquareBox2D | filters/src/lib.rs:50-58 | the 2D radius-1 box blur (3×3 kernel of 1/9) of the same image writes 1, 0, 1, 1 |
| Convolution.SeparableDiffersFrom2D | filters/src/lib.rs:33-58 | the separable and the 2D box blur of the same image with the same radius write different samples at pixel (0, 0) |
| Edges.Luma | filters/src/lib.rs:325-336 | the luma `0.299 R + 0.587 G + 0.114 B` as `u8` lies between the smallest and the largest of R, G, B and equals them on a grey pixel |
| Edges.LumaImage | filters/src/lib.rs:325-336 | the read buffer after the luma step, as long as before: channels 0..2 of every pixel hold its luma, further channels keep their value |
| Edges.LumaImageAt | filters/src/lib.rs:325-336 | after the luma rewrite, channels 0..2 of a pixel hold its luma and further channels are unchanged |
| Edges.LumaImageIsGrey | filters/src/lib.rs:333-335 | after the luma rewrite, channels 0..2 of every pixel are equal |
| Edges.LumaImageIdempotent | filters/src/lib.rs:325-336 | rewriting to luma twice is the same as once |
| Edges.LumaOfUniform | filters/src/lib.rs:325-336 | the luma rewrite maps a single-colour image to a single-colour image |
| Edges.MagnitudeBounds | filters/src/lib.rs:356-364 | the magnitude `sqrt(gx² + gy²)` as `u8` is at least each gradient and at most their sum |
| Edges.MagnitudeOfZero | filters/src/lib.rs:362 | zero gradients give magnitude 0 |
| Edges.Magnitude | filters/src/lib.rs:362 | one sample of the magnitude step: `sqrt(gx² + gy²)` clamped to [0, 255] and truncated (bounds in `Edges.MagnitudeBounds`) |
| Edges.MagnitudeImage | filters/src/lib.rs:356-364 | the write buffer after the magnitude step, as long as the gradient buffers: each sample is the magnitude of the two gradient samples at the same index, over all channels |
| Edges.PreBlurred | filters/src/lib.rs:313-319 | without sigma the buffers are untouched; with it both buffers hold the separable blur |
| Edges.SobelResult | filters/src/lib.rs:308-365 | both buffers after `sobel2d`, each of the image's size: the luma of the (optionally pre-blurred) read buffer, and the magnitude of its x-gradient (over the blurred write buffer) and y-gradient (over a copy of the luma) |
| Edges.FlatImageHasNoEdges | filters/src/lib.rs:308-365 | `sobel2d` with gradient kernels summing to 0 writes 0 everywhere for a single-colour image of 3 or 4 channels, with or without the pre-blur |
| Filters.Image.Convolve | filters/src/lib.rs:367-422 | the write buffer becomes `Convolved` of the read buffer with the kernel; the read buffer is unchanged |
| Filters.Image.AccumulatePixel | filters/src/lib.rs:389-415 | the four accumulator slots hold the window sums of channels 0..min(c, 4) and 0 in the remaining slots |
| Filters.Image.AccumulateTap | filters/src/lib.rs:396-415 | kernel cell (i, j) adds its weight times the sample of the clamped source pixel to each of the first min(channels, 4) slots and leaves the other slots alone |
| Filters.Image.WeighPixel | filters/src/lib.rs:412-414 | the zip loop of one kernel cell leaves the slots `WeighedInto` of the pixel at `start`, which `Filters.WeighedIntoAt` shows adds sample × weight to each of the first min(channels, 4) slots |
| Filters.Image.AccumulateRow | filters/src/lib.rs:396-415 | the cells of kernel row i in `indexed_iter` order: each slot in use gains that row's sum of weight × clamped sample; the other slots are unchanged |
| Filters.Image.WritePixel | filters/src/lib.rs:417-419 | writing pixel (x, y) extends by `channels` samples the prefix of the write buffer that already holds `Convolved`; the rest still holds the old samples |
| Filters.WeighedIntoAt | filters/src/lib.rs:412-414 | the zip of the four slots with a pixel's samples adds sample q × weight to slot q for each q below the zip length and stops there |
| Filters.Image.CopyWriteToRead | filters/src/lib.rs:44 | `copy_from_slice`: the read buffer becomes a copy of the write buffer |
| Filters.Image.Blur1D | filters/src/lib.rs:281-296 | `gaussian_blur_1d` and `box_blur_1d` with their kernels give `SeparableBlurred` of the old buffers |
| Filters.Image.Blur2D | filters/src/lib.rs:298-306 | `gaussian_blur_2d` and `box_blur_2d` give one `Convolved` pass and keep the read buffer |
| Filters.Image.LumaInPlace | filters/src/lib.rs:325-336 | the read buffer becomes `LumaImage` of its old contents |
| Filters.Image.Magnitudes | filters/src/lib.rs:356-364 | the write buffer becomes the per-sample magnitude of itself and the y-gradient buffer |
| Filters.Image.Sobel2D | filters/src/lib.rs:308-365 | both buffers end as `SobelResult`: luma in the read buffer, the magnitude image in the write buffer |
| Gaussian.Ceil | filters/src/kernel.rs:6 | `ceil` is the least integer at or above its argument |
| Gaussian.Radius | filters/src/kernel.rs:6 | the radius `ceil(sigma) * 3` is a multiple of 3 and at least 3 for positive sigma |
| Gaussian.BellPositive | filters/src/kernel.rs:10 | every unnormalised Gaussian entry is positive |
| Gaussian.RawRow | filters/src/kernel.rs:6-11 | the filled row before normalising: 2r+1 entries, entry i the Gaussian of offset i − r |
| Gaussian.RawSquare | filters/src/kernel.rs:27-34 | the filled square before normalising: (2r+1)², entry [j][i] the Gaussian of (i − r)² + (j − r)² |
| Gaussian.NormalizedRow | filters/src/kernel.rs:13-19 | the raw row divided by its left-folded sum |
| Gaussian.NormalizedSquare | filters/src/kernel.rs:36-42 | the raw square divided by the left-folded sum of all its entries |
| Gaussian.SumScale | filters/src/kernel.rs:13-19 | dividing every entry by `d` divides the sum by `d` |
| Gaussian.SumAllScale | filters/src/kernel.rs:36-42 | dividing every entry of the square by `d` divides the flattened sum by `d` |
| Gaussian.RawRowProperties | filters/src/kernel.rs:6-11 | the unnormalised row is positive and symmetric about its centre |
| Gaussian.RawSquareProperties | filters/src/kernel.rs:27-34 | the unnormalised square is (2r+1)², positive, equal to its transpose and mirror-symmetric in both axes |
| Gaussian.NormalizedRowProperties | filters/src/kernel.rs:1-20 | the normalised row has 2r+1 entries, is symmetric, positive and sums to 1 |
| Gaussian.NormalizedSquareProperties | filters/src/kernel.rs:22-43 | the normalised square is (2r+1)², symmetric, positive and its entries sum to 1 |
| Gaussian.TestSigmaRadius | filters/src/kernel.rs:74-85 | sigma 0.84089642 gives radius 3 and 7 taps, the shape of the unit test's expected kernels |
| Gaussian.FillRow | filters/src/kernel.rs:7-11 | the loop fills the row with the Gaussian of `x = −r ..= r` |
| Gaussian.FillSquare | filters/src/kernel.rs:28-34 | the nested loop writes `kernel[j][i]` for `x` outer and `y` inner and leaves the square of Gaussians of `x² + y²` |
| Gaussian.FillColumn | filters/src/kernel.rs:31-33 | the inner loop for one x: column i of the kernel becomes column i of the raw square; every other entry is unchanged |
| FiltersKernel.GaussianKernel1D | filters/src/kernel.rs:1-20 | panics exactly when sigma ≤ 0; otherwise one row of 2r+1 entries, symmetric, positive, summing to 1 |
| FiltersKernel.GaussianKernel2D | filters/src/kernel.rs:22-43 | panics exactly when sigma ≤ 0; otherwise a (2r+1)² kernel that is symmetric, positive and sums to 1 |
| FiltersKernel.TestSigmaShapes | filters/src/kernel.rs:74-120 | for sigma 0.84089642 the kernels are 1×7 and 7×7 |
| FilterKernel.GaussianKernel1D | src/filter/kernel.rs:1-17 | the flat row: panics exactly when sigma ≤ 0; otherwise 2r+1 entries, symmetric, positive, summing to 1 |
| FilterKernel.GaussianKernel2D | src/filter/kernel.rs:19-40 | the same square kernel as the crate's builder, with the same properties |
| Filter.InPlaceColumnSettled | src/filter.rs:32-50 | once the vertical pass has rewritten a row, later steps of the pass do not change it |
| Filter.Smoothed | src/filter.rs:14-28 | one pixel of a one-dimensional pass: each channel of the window sum along the line, positions clamped, cast `as u8` |
| Filter.InPlaceColumn | src/filter.rs:32-50 | a column after the first n steps of the vertical pass, as long as before: rows from n on are unchanged, and step v blurs row v from the column as the earlier steps left it |
| Filter.Blurred1D | src/filter.rs:5-51 | column x of the crop window after both passes of `gaussian_1d`: h pixels, the in-place vertical pass over the horizontal pass's column |
| Filter.Smoothed2D | src/filter.rs:61-81 | one pixel of `gaussian_2d`: each channel of the square-window sum, both coordinates clamped, cast `as u8` |
| Filter.InPlaceColumnRow | src/filter.rs:36-48 | row v of the finished column is the blur of a column whose rows above v are already blurred and whose other rows still hold the horizontal pass's output |
| Filter.InPlacePassReadsItsOwnOutput | src/filter.rs:32-50 | on the column black over white with kernel [1/4, 1/2, 1/4], the second row becomes 207, where reading only the horizontal pass's output would give 191 |
| Filter.SmoothedUniform | src/filter.rs:14-28 | a kernel of odd length whose taps sum to 1 maps a uniform line to itself |
| Filter.InPlaceColumnUniform | src/filter.rs:32-50 | the in-place vertical pass with such a kernel leaves a uniform column unchanged |
| Filter.Blurred1DOfFlat | src/filter.rs:5-51 | both passes of `gaussian_1d` with such a kernel leave a uniform image unchanged |
| Filter.Smoothed2DOfFlat | src/filter.rs:59-83 | `gaussian_2d` with an odd square kernel summing to 1 leaves a uniform image unchanged |
| Filter.GaussianBlur1DKeepsFlatImage | src/filter.rs:5-51 | with the kernel built for any positive sigma, `gaussian_1d` maps a uniform image to itself |
| Filter.GaussianBlur2DKeepsFlatImage | src/filter.rs:53-84 | with the kernel built for any positive sigma, `gaussian_2d` maps a uniform image to itself |
| Filter.AccumulateLine | src/filter.rs:16-25 | the tap loop adds `p[c] × kernel[i]` over `x − r ..= x + r`, reading clamped positions, to each of the three sums |
| Filter.RowSample | src/filter.rs:14-28 | one horizontal-pass pixel is the truncated window sum along its row of the input |
| Filter.RowPassAt | src/filter.rs:13-29 | one column x of the horizontal pass: buffer column cx + x gets `Smoothed` of every input row over the crop rows; every other pixel is unchanged |
| Filter.ColumnSample | src/filter.rs:34-48 | one vertical-pass pixel is the truncated window sum along its column of the buffer as it is now |
| Filter.ColumnPassAt | src/filter.rs:33-49 | one column X of the vertical pass: its crop rows become `InPlaceColumn` of the column's old contents; every other pixel is unchanged |
| Filter.RowPass | src/filter.rs:12-30 | every crop-window pixel of the buffer gets the horizontal blur of the input; the rest of the buffer is unchanged |
| Filter.ColumnPass | src/filter.rs:32-50 | every crop-window column becomes its in-place vertical blur; the rest of the buffer is unchanged |
| Filter.Gaussian1D | src/filter.rs:5-51 | fails exactly when sigma ≤ 0, leaving the buffer untouched; otherwise the crop window holds both passes of the blur of the input and nothing else changes |
| Filter.PlaneSample | src/filter.rs:61-81 | one `gaussian_2d` pixel is the truncated sum over the square window, row by row, with both coordinates clamped |
| Filter.AccumulatePlaneRow | src/filter.rs:64-76 | one kernel row adds `p[c] × kernel[j][i]` over the clamped positions of its image row to each of the three sums |
| Filter.PlanePassAt | src/filter.rs:60-82 | one column x of `gaussian_2d`: buffer column cx + x gets `Smoothed2D` of the input over the crop rows; every other pixel is unchanged |
| Filter.PlanePass | src/filter.rs:59-82 | every crop-window pixel of the buffer gets the 2D blur of the input; the rest of the buffer is unchanged |
| Filter.Gaussian2D | src/filter.rs:53-84 | fails exactly when sigma ≤ 0, leaving the buffer untouched; otherwise the crop window holds the 2D blur of the input and nothing else changes |

## Left out

- The GPU back-end (`box_blur_1d_gpu`, filters/src/lib.rs:60-279) and filters/src/texture.rs: device setup and shader dispatch, not convolution logic.
- src/main.rs: argument parsing, file checks, decoding, saving and overlay. Note that src/main.rs:99 checks `crop_x` against the height rather than `crop_y`; main.rs is not part of this model.
- The `rayon` parallel iterators are modelled as sequential loops. Every output chunk is written independently from read-only data, so the order does not matter.
- `f32`/`f64` rounding: sums are exact reals. The unit tests' 8-decimal kernel values and their `1e-8` tolerance are left out. Only the shapes and exact properties of those kernels are stated.
- The kernel builders that the `filters` crate calls (`box_blur_kernel_1d/2d`, `gaussian_blur_kernel_1d/2d`, `sobel_2d`) are not in the modelled files. The pipelines take kernels as parameters. The box-blur test uses three weights of 1/3 for the radius-1 box kernel.
- `exp` and `sqrt` are parameters instead of the floating-point library functions.
- Integer widths: `u32`, `i32`, `isize` and `usize` overflow in coordinates and in `crop_x + x` is not modelled. Images are assumed small enough.
- `Filter.Gaussian1D` and `Filter.Gaussian2D` do not require a non-empty image: `w - 1` is evaluated only inside the loop bodies, so an empty image writes nothing. They do require the buffer to hold the crop window; `get_pixel_mut` would panic otherwise.
- `Filters.Image.Sobel2D` and `Filters.Image.LumaInPlace` require `channels >= 3`: the luma step (filters/src/lib.rs:325-335) indexes `p[0]`, `p[1]` and `p[2]` of each pixel, so a one- or two-channel image panics there. That panic is excluded, not modelled. Every caller passes an RGBA image (the `Rgba` buffers of src/main.rs:135-136 and `into_rgba()` in filters/tests).
- `Filters.Image.Convolve` requires width and channel count above zero. With either at 0 the chunk size is 0 and `par_chunks_exact_mut` panics.
- The `Default` for `Image` and the test of it (filters/src/lib.rs:505-517) are left out: they construct empty values.
- The benches and the integration tests under filters/tests are left out. Their expectations are PNG and JPG files under tests/fixtures (tests/img for gaussian_blur_2d.rs:41-44), compared byte for byte with the saved output (filters/tests/sobel.rs:39-41, gaussian_blur.rs:39-41 and 81-83, box_blur.rs:39-41 and 81-84, gaussian_blur_2d.rs:41-44). They depend on kernel builders outside this model, on `f32` rounding and on the image codecs.
