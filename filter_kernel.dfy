/** The kernel builders of src/filter/kernel.rs. They compute what those of
    filters/src/kernel.rs compute; the 1D kernel is a flat vector here. */
module FilterKernel {
  import opened Gaussian
  import FiltersKernel

  /** `gaussian_kernel_1d`, returning the flat row. */
  method GaussianKernel1D(sigma: real, exp: real -> real) returns (r: Result<seq<real>>)
    requires PositiveFunction(exp)
    ensures r.Panic? <==> sigma <= 0.0
    ensures r.Ok? ==> sigma > 0.0 && r.value == NormalizedRow(sigma, exp)
    ensures r.Ok? ==> |r.value| == 2 * Radius(sigma) + 1
    ensures r.Ok? ==> Symmetric(r.value) && AllPositive(r.value) && Sum(r.value) == 1.0
  {
    if sigma <= 0.0 {
      return Panic(SigmaNotPositive);
    }
    var kernel := FillRow(sigma, exp);
    RawRowProperties(sigma, exp);
    SumPositive(kernel);
    var sum := Sum(kernel);
    NormalizedRowProperties(sigma, exp);
    r := Ok(Scale(kernel, sum));
  }

  /** `gaussian_kernel_2d`: the same code as the 2D builder of
      filters/src/kernel.rs. */
  method GaussianKernel2D(sigma: real, exp: real -> real) returns (r: Result<seq<seq<real>>>)
    requires PositiveFunction(exp)
    ensures r.Panic? <==> sigma <= 0.0
    ensures r.Ok? ==> sigma > 0.0 && r.value == NormalizedSquare(sigma, exp)
    ensures r.Ok? ==> IsSquare(r.value, 2 * Radius(sigma) + 1)
    ensures r.Ok? ==> TransposeSymmetric(r.value) && MirrorSymmetric(r.value)
    ensures r.Ok? ==> AllPositiveSquare(r.value) && SumAll(r.value) == 1.0
  {
    r := FiltersKernel.GaussianKernel2D(sigma, exp);
  }
}
