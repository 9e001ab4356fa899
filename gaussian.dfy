/** The Gaussian kernel mathematics shared by filters/src/kernel.rs and
    src/filter/kernel.rs: the radius, the unnormalised bell values, the sums
    and the normalisation, with the properties every kernel they build has.
    `exp` is a parameter: the model assumes only that it is positive. */
module Gaussian {

  /** The only failure of a kernel builder: the panic "sigma should be > 0". */
  datatype KernelError = SigmaNotPositive

  /** A kernel builder's outcome: the kernel, or the panic. */
  datatype Result<T> = Ok(value: T) | Panic(error: KernelError)

  /** `f64::ceil` on exact reals. */
  function Ceil(x: real): (c: int)
    ensures (c - 1) as real < x <= c as real
  {
    -((-x).Floor)
  }

  /** `sigma.ceil() as i64 * 3`: the number of taps on either side of the centre. */
  function Radius(sigma: real): (r: int)
    ensures sigma > 0.0 ==> r >= 3
    ensures r % 3 == 0
  {
    Ceil(sigma) * 3
  }

  /** Every value of `exp` is positive. */
  ghost predicate PositiveFunction(exp: real -> real)
  {
    forall z :: exp(z) > 0.0
  }

  /** `exp(-d / (2 sigma^2))` for a squared distance `d` from the centre. */
  function Bell(sigma: real, exp: real -> real, d: int): real
    requires sigma > 0.0
  {
    exp(-(d as real) / (2.0 * (sigma * sigma)))
  }

  /** `exp(-(x^2) / (2 sigma^2))`. */
  function Bell1D(sigma: real, exp: real -> real, x: int): real
    requires sigma > 0.0
  {
    Bell(sigma, exp, x * x)
  }

  /** `exp(-(x^2 + y^2) / (2 sigma^2))`. */
  function Bell2D(sigma: real, exp: real -> real, x: int, y: int): real
    requires sigma > 0.0
  {
    Bell(sigma, exp, x * x + y * y)
  }

  lemma BellPositive(sigma: real, exp: real -> real, d: int)
    requires sigma > 0.0 && PositiveFunction(exp)
    ensures Bell(sigma, exp, d) > 0.0
  {
  }

  /** The filled, not yet normalised row: entry `i` is the bell value at
      offset `x = i - radius`. */
  function RawRow(sigma: real, exp: real -> real): (r: seq<real>)
    requires sigma > 0.0
    ensures |r| == 2 * Radius(sigma) + 1
  {
    var radius := Radius(sigma);
    seq(2 * radius + 1, i => Bell1D(sigma, exp, i - radius))
  }

  /** The filled, not yet normalised square, indexed `[j][i]` with `i` for
      the x offset and `j` for the y offset. */
  function RawSquare(sigma: real, exp: real -> real): (m: seq<seq<real>>)
    requires sigma > 0.0
    ensures IsSquare(m, 2 * Radius(sigma) + 1)
  {
    var radius := Radius(sigma);
    var n := 2 * radius + 1;
    seq(n, j => seq(n, i => Bell2D(sigma, exp, i - radius, j - radius)))
  }

  /** `iter().sum()`: a left fold from 0. */
  function Sum(s: seq<real>): real
  {
    if |s| == 0 then 0.0 else Sum(s[..|s| - 1]) + s[|s| - 1]
  }

  /** `iter().flat_map(IntoIterator::into_iter).sum()`: row after row. */
  function SumAll(m: seq<seq<real>>): real
  {
    if |m| == 0 then 0.0 else SumAll(m[..|m| - 1]) + Sum(m[|m| - 1])
  }

  /** `map(|n| n / sum)`. */
  function Scale(s: seq<real>, d: real): (r: seq<real>)
    requires d != 0.0
    ensures |r| == |s|
  {
    seq(|s|, i requires 0 <= i < |s| => s[i] / d)
  }

  function ScaleAll(m: seq<seq<real>>, d: real): (r: seq<seq<real>>)
    requires d != 0.0
    ensures |r| == |m|
  {
    seq(|m|, j requires 0 <= j < |m| => Scale(m[j], d))
  }

  predicate IsSquare(m: seq<seq<real>>, n: int)
  {
    |m| == n && forall j :: 0 <= j < |m| ==> |m[j]| == n
  }

  predicate AllPositive(s: seq<real>)
  {
    forall i :: 0 <= i < |s| ==> s[i] > 0.0
  }

  predicate AllPositiveSquare(m: seq<seq<real>>)
  {
    forall j :: 0 <= j < |m| ==> AllPositive(m[j])
  }

  /** Symmetric about the centre. */
  predicate Symmetric(s: seq<real>)
  {
    forall i :: 0 <= i < |s| ==> s[i] == s[|s| - 1 - i]
  }

  /** `kernel[j][i] == kernel[i][j]`. */
  predicate TransposeSymmetric(m: seq<seq<real>>)
    requires IsSquare(m, |m|)
  {
    forall j, i :: 0 <= j < |m| && 0 <= i < |m| ==> m[j][i] == m[i][j]
  }

  /** Symmetric about the centre on both axes: the rows read the same from
      the bottom up, and each row is symmetric. */
  predicate MirrorSymmetric(m: seq<seq<real>>)
  {
    (forall j :: 0 <= j < |m| ==> m[j] == m[|m| - 1 - j]) &&
    (forall j :: 0 <= j < |m| ==> Symmetric(m[j]))
  }

  lemma AddDivided(a: real, b: real, d: real)
    requires d != 0.0
    ensures a / d + b / d == (a + b) / d
  {
  }

  lemma {:induction false} SumScale(s: seq<real>, d: real)
    requires d != 0.0
    ensures Sum(Scale(s, d)) == Sum(s) / d
  {
    if |s| > 0 {
      var init := s[..|s| - 1];
      assert Scale(s, d)[..|s| - 1] == Scale(init, d);
      SumScale(init, d);
      assert Sum(Scale(s, d)) == Sum(Scale(init, d)) + s[|s| - 1] / d;
      AddDivided(Sum(init), s[|s| - 1], d);
    }
  }

  lemma {:induction false} SumAllScale(m: seq<seq<real>>, d: real)
    requires d != 0.0
    ensures SumAll(ScaleAll(m, d)) == SumAll(m) / d
  {
    if |m| > 0 {
      var init := m[..|m| - 1];
      assert ScaleAll(m, d)[..|m| - 1] == ScaleAll(init, d);
      SumAllScale(init, d);
      SumScale(m[|m| - 1], d);
      assert SumAll(ScaleAll(m, d)) == SumAll(ScaleAll(init, d)) + Sum(Scale(m[|m| - 1], d));
      AddDivided(SumAll(init), Sum(m[|m| - 1]), d);
    }
  }

  /** A non-empty sum of positive values is positive. */
  lemma {:induction false} SumPositive(s: seq<real>)
    requires |s| > 0 && AllPositive(s)
    ensures Sum(s) > 0.0
  {
    if |s| > 1 {
      SumPositive(s[..|s| - 1]);
    }
  }

  lemma {:induction false} SumAllPositive(m: seq<seq<real>>)
    requires |m| > 0 && AllPositiveSquare(m) && forall j :: 0 <= j < |m| ==> |m[j]| > 0
    ensures SumAll(m) > 0.0
  {
    SumPositive(m[|m| - 1]);
    if |m| > 1 {
      SumAllPositive(m[..|m| - 1]);
    }
  }

  /** The normalised 1D kernel: the raw row divided by its sum. */
  function NormalizedRow(sigma: real, exp: real -> real): seq<real>
    requires sigma > 0.0 && PositiveFunction(exp)
  {
    var raw := RawRow(sigma, exp);
    RawRowProperties(sigma, exp);
    SumPositive(raw);
    Scale(raw, Sum(raw))
  }

  /** The normalised 2D kernel: the raw square divided by the sum of all its entries. */
  function NormalizedSquare(sigma: real, exp: real -> real): seq<seq<real>>
    requires sigma > 0.0 && PositiveFunction(exp)
  {
    var raw := RawSquare(sigma, exp);
    RawSquareProperties(sigma, exp);
    SumAllPositive(raw);
    ScaleAll(raw, SumAll(raw))
  }

  /** Every raw weight is positive, and the row is symmetric because the
      weight depends on x^2 only. */
  lemma RawRowProperties(sigma: real, exp: real -> real)
    requires sigma > 0.0 && PositiveFunction(exp)
    ensures AllPositive(RawRow(sigma, exp)) && Symmetric(RawRow(sigma, exp))
  {
    var r, radius := RawRow(sigma, exp), Radius(sigma);
    forall i | 0 <= i < |r| ensures r[i] > 0.0 && r[i] == r[|r| - 1 - i] {
      var x, x' := i - radius, |r| - 1 - i - radius;
      assert x' * x' == x * x by {
        assert x' == -x;
      }
      assert r[i] == Bell1D(sigma, exp, x);
      assert r[i] == Bell(sigma, exp, x * x);
      assert r[|r| - 1 - i] == Bell1D(sigma, exp, x');
      assert r[|r| - 1 - i] == Bell(sigma, exp, x' * x');
      BellPositive(sigma, exp, x * x);
    }
  }

  /** Every raw weight is positive, and the square is transpose- and
      mirror-symmetric because the weight depends on x^2 + y^2 only. */
  lemma RawSquareProperties(sigma: real, exp: real -> real)
    requires sigma > 0.0 && PositiveFunction(exp)
    ensures IsSquare(RawSquare(sigma, exp), 2 * Radius(sigma) + 1)
    ensures AllPositiveSquare(RawSquare(sigma, exp))
    ensures TransposeSymmetric(RawSquare(sigma, exp)) && MirrorSymmetric(RawSquare(sigma, exp))
    ensures forall j :: 0 <= j < |RawSquare(sigma, exp)| ==> |RawSquare(sigma, exp)[j]| > 0
  {
    var m, radius := RawSquare(sigma, exp), Radius(sigma);
    var n := |m|;
    forall j, i | 0 <= j < n && 0 <= i < n
      ensures m[j][i] > 0.0 && m[j][i] == m[i][j]
      ensures m[j][i] == m[n - 1 - j][i] && m[j][i] == m[j][n - 1 - i]
    {
      SquareEntry(sigma, exp, j, i);
    }
    forall j | 0 <= j < n ensures m[j] == m[n - 1 - j] && Symmetric(m[j]) && AllPositive(m[j]) {
      assert forall i :: 0 <= i < n ==> m[j][i] == m[n - 1 - j][i];
    }
  }

  /** One entry of the raw square and its three mirror images. */
  lemma SquareEntry(sigma: real, exp: real -> real, j: int, i: int)
    requires sigma > 0.0 && PositiveFunction(exp)
    requires 0 <= j < 2 * Radius(sigma) + 1 && 0 <= i < 2 * Radius(sigma) + 1
    ensures var m, n := RawSquare(sigma, exp), 2 * Radius(sigma) + 1;
      m[j][i] > 0.0 && m[j][i] == m[i][j] && m[j][i] == m[n - 1 - j][i] && m[j][i] == m[j][n - 1 - i]
  {
    var m, radius := RawSquare(sigma, exp), Radius(sigma);
    var n := 2 * radius + 1;
    var x, y := i - radius, j - radius;
    var x', y' := n - 1 - i - radius, n - 1 - j - radius;
    assert x' * x' == x * x by {
      assert x' == -x;
    }
    assert y' * y' == y * y by {
      assert y' == -y;
    }
    assert m[j][i] == Bell2D(sigma, exp, x, y);
    assert m[i][j] == Bell2D(sigma, exp, y, x);
    assert m[n - 1 - j][i] == Bell2D(sigma, exp, x, y');
    assert m[j][n - 1 - i] == Bell2D(sigma, exp, x', y);
    BellPositive(sigma, exp, x * x + y * y);
  }

  /** The normalised 1D kernel has 2r + 1 entries, is symmetric, positive and
      sums to 1. */
  lemma NormalizedRowProperties(sigma: real, exp: real -> real)
    requires sigma > 0.0 && PositiveFunction(exp)
    ensures |NormalizedRow(sigma, exp)| == 2 * Radius(sigma) + 1
    ensures Symmetric(NormalizedRow(sigma, exp)) && AllPositive(NormalizedRow(sigma, exp))
    ensures Sum(NormalizedRow(sigma, exp)) == 1.0
  {
    var raw := RawRow(sigma, exp);
    RawRowProperties(sigma, exp);
    SumPositive(raw);
    var total := Sum(raw);
    assert NormalizedRow(sigma, exp) == Scale(raw, total);
    ScalePreserves(raw, total);
    SumScale(raw, total);
    DivSelf(total);
  }

  lemma DivSelf(x: real)
    requires x != 0.0
    ensures x / x == 1.0
  {
  }

  /** Dividing by a positive sum keeps positivity and symmetry. */
  lemma ScalePreserves(s: seq<real>, d: real)
    requires d > 0.0 && AllPositive(s) && Symmetric(s)
    ensures AllPositive(Scale(s, d)) && Symmetric(Scale(s, d))
  {
    var r := Scale(s, d);
    forall i | 0 <= i < |r| ensures r[i] > 0.0 {
      assert r[i] == s[i] / d;
    }
  }

  /** Dividing every entry by a positive sum keeps the square's shape,
      positivity and symmetries. */
  lemma ScaleAllPreserves(m: seq<seq<real>>, d: real)
    requires d > 0.0 && IsSquare(m, |m|) && AllPositiveSquare(m)
    requires TransposeSymmetric(m) && MirrorSymmetric(m)
    ensures IsSquare(ScaleAll(m, d), |m|) && AllPositiveSquare(ScaleAll(m, d))
    ensures TransposeSymmetric(ScaleAll(m, d)) && MirrorSymmetric(ScaleAll(m, d))
  {
    var r := ScaleAll(m, d);
    forall j | 0 <= j < |r| ensures r[j] == r[|r| - 1 - j] && AllPositive(r[j]) && Symmetric(r[j]) {
      ScalePreserves(m[j], d);
    }
    forall j, i | 0 <= j < |r| && 0 <= i < |r| ensures r[j][i] == r[i][j] {
      assert r[j][i] == m[j][i] / d && r[i][j] == m[i][j] / d;
    }
  }

  /** The normalised 2D kernel is a (2r + 1) square, transpose- and
      mirror-symmetric, positive and sums to 1. */
  lemma NormalizedSquareProperties(sigma: real, exp: real -> real)
    requires sigma > 0.0 && PositiveFunction(exp)
    ensures IsSquare(NormalizedSquare(sigma, exp), 2 * Radius(sigma) + 1)
    ensures TransposeSymmetric(NormalizedSquare(sigma, exp)) && MirrorSymmetric(NormalizedSquare(sigma, exp))
    ensures AllPositiveSquare(NormalizedSquare(sigma, exp))
    ensures SumAll(NormalizedSquare(sigma, exp)) == 1.0
  {
    var raw := RawSquare(sigma, exp);
    RawSquareProperties(sigma, exp);
    SumAllPositive(raw);
    var total := SumAll(raw);
    assert NormalizedSquare(sigma, exp) == ScaleAll(raw, total);
    ScaleAllPreserves(raw, total);
    SumAllScale(raw, total);
    DivSelf(total);
  }

  /** The unit tests' sigma 0.84089642 gives radius 3: seven taps per axis. */
  lemma TestSigmaRadius()
    ensures Radius(0.84089642) == 3 && 2 * Radius(0.84089642) + 1 == 7
  {
    assert (-0.84089642).Floor == -1;
  }

  /** The indexed fill loop `for (i, x) in (-radius..=radius).enumerate()`
      of both 1D builders, into a zero-initialised vector. */
  method FillRow(sigma: real, exp: real -> real) returns (row: seq<real>)
    requires sigma > 0.0
    ensures row == RawRow(sigma, exp)
  {
    var radius := Radius(sigma);
    var kernel := new real[2 * radius + 1](_ => 0.0);
    var i := 0;
    while i < kernel.Length
      invariant 0 <= i <= kernel.Length
      invariant forall t :: 0 <= t < i ==> kernel[t] == Bell1D(sigma, exp, t - radius)
    {
      var x := i - radius;
      kernel[i] := Bell1D(sigma, exp, x);
      i := i + 1;
    }
    row := kernel[..];
  }

  /** The inner loop of the 2D fill: column `i` of `kernel`, row by row. */
  method FillColumn(kernel: array2<real>, sigma: real, exp: real -> real, i: int)
    requires sigma > 0.0
    requires kernel.Length0 == 2 * Radius(sigma) + 1 && kernel.Length1 == kernel.Length0
    requires 0 <= i < kernel.Length1
    modifies kernel
    ensures forall j, i' :: 0 <= j < kernel.Length0 && 0 <= i' < kernel.Length1 ==>
      kernel[j, i'] == if i' == i then RawSquare(sigma, exp)[j][i] else old(kernel[j, i'])
  {
    var radius := Radius(sigma);
    ghost var expected := RawSquare(sigma, exp);
    var j := 0;
    while j < kernel.Length0
      invariant 0 <= j <= kernel.Length0
      invariant forall j', i' :: 0 <= j' < kernel.Length0 && 0 <= i' < kernel.Length1 ==>
        kernel[j', i'] == if i' == i && j' < j then expected[j'][i] else old(kernel[j', i'])
    {
      kernel[j, i] := Bell2D(sigma, exp, i - radius, j - radius);
      assert kernel[j, i] == expected[j][i];
      j := j + 1;
    }
  }

  /** The nested fill loop of both 2D builders: `i` (for x) outer, `j` (for
      y) inner, writing `kernel[j][i]`. */
  method FillSquare(sigma: real, exp: real -> real) returns (square: seq<seq<real>>)
    requires sigma > 0.0
    ensures square == RawSquare(sigma, exp)
  {
    var radius := Radius(sigma);
    var n := 2 * radius + 1;
    ghost var expected := RawSquare(sigma, exp);
    var kernel := new real[n, n]((_, _) => 0.0);
    var i := 0;
    while i < n
      invariant 0 <= i <= n
      invariant forall j, i' :: 0 <= j < n && 0 <= i' < i ==> kernel[j, i'] == expected[j][i']
    {
      FillColumn(kernel, sigma, exp, i);
      i := i + 1;
    }
    square := seq(n, j requires 0 <= j < n reads kernel => seq(n, i' requires 0 <= i' < n reads kernel => kernel[j, i']));
    forall j | 0 <= j < n ensures square[j] == expected[j] {
      assert forall i' :: 0 <= i' < n ==> square[j][i'] == expected[j][i'];
    }
  }
}
