/** The kernel builders of filters/src/kernel.rs. The 1D kernel is returned
    as a matrix of a single row. */
module FiltersKernel {
  import opened Gaussian

  /** `gaussian_kernel_1d`: panics unless sigma > 0, fills the row of
      2r + 1 bell values and divides each by their sum. */
  method GaussianKernel1D(sigma: real, exp: real -> real) returns (r: Result<seq<seq<real>>>)
    requires PositiveFunction(exp)
    ensures r.Panic? <==> sigma <= 0.0
    ensures r.Ok? ==> sigma > 0.0 && r.value == [NormalizedRow(sigma, exp)]
    ensures r.Ok? ==> |r.value| == 1 && |r.value[0]| == 2 * Radius(sigma) + 1
    ensures r.Ok? ==> Symmetric(r.value[0]) && AllPositive(r.value[0]) && Sum(r.value[0]) == 1.0
  {
    if sigma <= 0.0 {
      return Panic(SigmaNotPositive);
    }
    var kernel := FillRow(sigma, exp);
    RawRowProperties(sigma, exp);
    SumPositive(kernel);
    var sum := Sum(kernel);
    NormalizedRowProperties(sigma, exp);
    r := Ok([Scale(kernel, sum)]);
  }

  /** `gaussian_kernel_2d`: panics unless sigma > 0, fills the (2r + 1)
      square of bell values (`kernel[j][i]` for x offset `i` and y offset
      `j`) and divides each by the sum of all of them. */
  method GaussianKernel2D(sigma: real, exp: real -> real) returns (r: Result<seq<seq<real>>>)
    requires PositiveFunction(exp)
    ensures r.Panic? <==> sigma <= 0.0
    ensures r.Ok? ==> sigma > 0.0 && r.value == NormalizedSquare(sigma, exp)
    ensures r.Ok? ==> IsSquare(r.value, 2 * Radius(sigma) + 1)
    ensures r.Ok? ==> TransposeSymmetric(r.value) && MirrorSymmetric(r.value)
    ensures r.Ok? ==> AllPositiveSquare(r.value) && SumAll(r.value) == 1.0
  {
    if sigma <= 0.0 {
      return Panic(SigmaNotPositive);
    }
    var kernel := FillSquare(sigma, exp);
    RawSquareProperties(sigma, exp);
    SumAllPositive(kernel);
    var sum := SumAll(kernel);
    NormalizedSquareProperties(sigma, exp);
    r := Ok(ScaleAll(kernel, sum));
  }

  /** With the unit tests' sigma 0.84089642 the 1D kernel has seven entries
      and the 2D kernel is 7 x 7. */
  method TestSigmaShapes(exp: real -> real) returns (row: Result<seq<seq<real>>>, square: Result<seq<seq<real>>>)
    requires PositiveFunction(exp)
    ensures row.Ok? && |row.value| == 1 && |row.value[0]| == 7
    ensures square.Ok? && IsSquare(square.value, 7)
  {
    TestSigmaRadius();
    row := GaussianKernel1D(0.84089642, exp);
    square := GaussianKernel2D(0.84089642, exp);
  }
}
