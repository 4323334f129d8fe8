/** Per-column normalization of engine/tensor/normalize.py, over the reals. A tensor is the sequence of
    its columns; the square root is a parameter. */
module Normalize {
  import opened Prelude

  datatype Method = MinMax | ZScore

  /** `Undefined` is the fit of a z-score to no rows, whose parameters are not numbers. */
  datatype ColumnState = Fitted(offset: real, scale: real, zero: bool) | Undefined

  datatype NormalizeError = UnknownMethod | NoRows

  function MinOf(s: seq<real>): real
    requires s != []
  {
    if |s| == 1 then s[0]
    else
      var m := MinOf(s[..|s| - 1]);
      if s[|s| - 1] < m then s[|s| - 1] else m
  }

  function MaxOf(s: seq<real>): real
    requires s != []
  {
    if |s| == 1 then s[0]
    else
      var m := MaxOf(s[..|s| - 1]);
      if s[|s| - 1] > m then s[|s| - 1] else m
  }

  function Mean(s: seq<real>): real
    requires s != []
  {
    SumReal(s) / |s| as real
  }

  function Deviations(s: seq<real>, mean: real): seq<real> {
    seq(|s|, i requires 0 <= i < |s| => (s[i] - mean) * (s[i] - mean))
  }

  /** Population variance. */
  function Variance(s: seq<real>): real
    requires s != []
  {
    Mean(Deviations(s, Mean(s)))
  }

  /** Offset and scale of a column, before the guard against a zero scale. */
  function RawFit(s: seq<real>, method_: Method, sqrt: real -> real): (real, real)
    requires s != []
  {
    match method_
    case MinMax => (MinOf(s), MaxOf(s) - MinOf(s))
    case ZScore => (Mean(s), sqrt(Variance(s)))
  }

  function Fit(s: seq<real>, method_: Method, sqrt: real -> real): (st: ColumnState)
    ensures st.Fitted? ==> st.scale != 0.0
    ensures st.Undefined? <==> s == []
  {
    if s == [] then Undefined
    else
      var (offset, scale) := RawFit(s, method_, sqrt);
      Fitted(offset, if scale == 0.0 then 1.0 else scale, scale == 0.0)
  }

  /** `NormalizationState.apply` on one column. */
  function Apply(st: ColumnState, s: seq<real>): seq<real>
    requires st.Fitted? ==> st.scale != 0.0
    requires st.Undefined? ==> s == []
  {
    seq(|s|, i requires 0 <= i < |s| => if st.zero then 0.0 else (s[i] - st.offset) / st.scale)
  }

  function NormalizeColumn(s: seq<real>, method_: Method, sqrt: real -> real): seq<real> {
    Apply(Fit(s, method_, sqrt), s)
  }

  /** `normalize`: the normalized tensor and the fitted state; `None` stands for any other method name. */
  function NormalizeTensor(columns: seq<seq<real>>, method_: Option<Method>, sqrt: real -> real)
    : Result<(seq<seq<real>>, seq<ColumnState>), NormalizeError>
  {
    if method_.None? then Err(UnknownMethod)
    else if method_.value.MinMax? && exists i :: 0 <= i < |columns| && columns[i] == [] then Err(NoRows)
    else
      Ok((seq(|columns|, i requires 0 <= i < |columns| => NormalizeColumn(columns[i], method_.value, sqrt)),
          seq(|columns|, i requires 0 <= i < |columns| => Fit(columns[i], method_.value, sqrt))))
  }

  // How the fit follows an affine change of the column.

  /** `t` is `a * s + b`, element by element. */
  ghost predicate IsAffine(s: seq<real>, t: seq<real>, a: real, b: real) {
    |t| == |s| && forall i :: 0 <= i < |s| ==> Image(a, b, s[i], t[i])
  }

  ghost predicate Image(a: real, b: real, x: real, y: real) {
    y == a * x + b
  }

  lemma AffinePrefix(s: seq<real>, t: seq<real>, a: real, b: real)
    requires IsAffine(s, t, a, b) && s != []
    ensures IsAffine(s[..|s| - 1], t[..|t| - 1], a, b)
  {
  }

  lemma AffineOrder(a: real, b: real, x: real, u: real, y: real, v: real)
    requires a > 0.0 && Image(a, b, x, u) && Image(a, b, y, v)
    ensures x < y <==> u < v
  {
    var p, q := a * (y - x), a * (x - y);
    assert v - u == p == -q;
    if x < y {
      SameSignProduct(a, y - x, p);
    } else if y < x {
      SameSignProduct(a, x - y, q);
    }
  }

  lemma {:induction false} MinAffine(s: seq<real>, t: seq<real>, a: real, b: real)
    requires s != [] && IsAffine(s, t, a, b) && a > 0.0
    ensures Image(a, b, MinOf(s), MinOf(t))
  {
    if |s| > 1 {
      var x, u, y, v := s[|s| - 1], t[|t| - 1], MinOf(s[..|s| - 1]), MinOf(t[..|t| - 1]);
      AffinePrefix(s, t, a, b);
      MinAffine(s[..|s| - 1], t[..|t| - 1], a, b);
      AffineOrder(a, b, x, u, y, v);
    }
  }

  lemma {:induction false} MaxAffine(s: seq<real>, t: seq<real>, a: real, b: real)
    requires s != [] && IsAffine(s, t, a, b) && a > 0.0
    ensures Image(a, b, MaxOf(s), MaxOf(t))
  {
    if |s| > 1 {
      var x, u, y, v := s[|s| - 1], t[|t| - 1], MaxOf(s[..|s| - 1]), MaxOf(t[..|t| - 1]);
      AffinePrefix(s, t, a, b);
      MaxAffine(s[..|s| - 1], t[..|t| - 1], a, b);
      AffineOrder(a, b, y, v, x, u);
    }
  }

  lemma {:induction false} SumAffine(s: seq<real>, t: seq<real>, a: real, b: real)
    requires IsAffine(s, t, a, b)
    ensures SumReal(t) == a * SumReal(s) + b * |s| as real
  {
    if s != [] {
      AffinePrefix(s, t, a, b);
      SumAffine(s[..|s| - 1], t[..|t| - 1], a, b);
      var x, y, n := SumReal(s[..|s| - 1]), s[|s| - 1], (|s| - 1) as real;
      assert a * (x + y) == a * x + a * y;
      assert b * (n + 1.0) == b * n + b;
      assert |s| as real == n + 1.0;
    }
  }

  lemma MeanAffine(s: seq<real>, t: seq<real>, a: real, b: real)
    requires s != [] && IsAffine(s, t, a, b)
    ensures Image(a, b, Mean(s), Mean(t))
  {
    SumAffine(s, t, a, b);
    DivideAffine(SumReal(s), |s| as real, a, b);
  }

  lemma DivideAffine(x: real, n: real, a: real, b: real)
    requires n > 0.0
    ensures (a * x + b * n) / n == a * (x / n) + b
  {
    assert (a * (x / n) + b) * n == a * x + b * n by {
      assert x / n * n == x;
      assert a * (x / n) * n == a * (x / n * n);
    }
  }

  lemma DeviationsAffine(s: seq<real>, t: seq<real>, m: real, m': real, a: real, b: real, k: real)
    requires IsAffine(s, t, a, b) && Image(a, b, m, m') && k == a * a
    ensures IsAffine(Deviations(s, m), Deviations(t, m'), k, 0.0)
  {
    forall i | 0 <= i < |s| ensures Image(k, 0.0, Deviations(s, m)[i], Deviations(t, m')[i]) {
      DeviationImage(s[i], t[i], m, m', a, b, k);
    }
  }

  lemma VarianceAffine(s: seq<real>, t: seq<real>, a: real, b: real, k: real)
    requires s != [] && IsAffine(s, t, a, b) && k == a * a
    ensures Image(k, 0.0, Variance(s), Variance(t))
  {
    MeanAffine(s, t, a, b);
    DeviationsAffine(s, t, Mean(s), Mean(t), a, b, k);
    MeanAffine(Deviations(s, Mean(s)), Deviations(t, Mean(t)), k, 0.0);
  }

  lemma DeviationImage(x: real, u: real, m: real, m': real, a: real, b: real, k: real)
    requires Image(a, b, x, u) && Image(a, b, m, m') && k == a * a
    ensures Image(k, 0.0, (x - m) * (x - m), (u - m') * (u - m'))
  {
    assert u - m' == a * (x - m);
    ScaleSquare(x - m, u - m', a, k);
  }

  lemma ScaleSquare(x: real, y: real, a: real, k: real)
    requires y == a * x && k == a * a
    ensures y * y == k * (x * x)
  {
    assert (a * x) * (a * x) == (a * a) * (x * x);
  }

  lemma SquaresApart(x: real, y: real)
    requires 0.0 <= x < y
    ensures x * x < y * y
  {
    var d := y - x;
    var k := d * (y + x);
    SameSignProduct(d, y + x, k);
    assert k == y * y - x * x;
  }

  lemma RootUnique(x: real, y: real, z: real)
    requires x >= 0.0 && y >= 0.0 && x * x == z && y * y == z
    ensures x == y
  {
    if x < y {
      SquaresApart(x, y);
    } else if y < x {
      SquaresApart(y, x);
    }
  }

  lemma VarianceNonNegative(s: seq<real>)
    requires s != []
    ensures Variance(s) >= 0.0
  {
    SquaresSum(s, Mean(s));
  }

  lemma DeviationsPrefix(s: seq<real>, m: real)
    requires s != []
    ensures Deviations(s, m)[..|s| - 1] == Deviations(s[..|s| - 1], m)
  {
    forall i | 0 <= i < |s| - 1 ensures Deviations(s, m)[i] == Deviations(s[..|s| - 1], m)[i] {
      assert s[..|s| - 1][i] == s[i];
    }
  }

  lemma {:induction false} SquaresSum(s: seq<real>, m: real)
    ensures SumReal(Deviations(s, m)) >= 0.0
  {
    if s != [] {
      SquaresSum(s[..|s| - 1], m);
      DeviationsPrefix(s, m);
      SquareZero(s[|s| - 1] - m, Deviations(s, m)[|s| - 1]);
    }
  }

  lemma ScaledNonNegative(a: real, r: real, ar: real)
    requires a > 0.0 && r >= 0.0 && ar == a * r
    ensures ar >= 0.0
  {
  }

  lemma DeviationAffine(s: seq<real>, t: seq<real>, a: real, b: real, sqrt: real -> real)
    requires IsSqrt(sqrt) && s != [] && IsAffine(s, t, a, b) && a > 0.0
    ensures Image(a, 0.0, sqrt(Variance(s)), sqrt(Variance(t)))
  {
    var k, r, q := a * a, sqrt(Variance(s)), sqrt(Variance(t));
    VarianceAffine(s, t, a, b, k);
    VarianceNonNegative(s);
    VarianceNonNegative(t);
    assert RootOf(sqrt, Variance(s)) && RootOf(sqrt, Variance(t));
    var ar := a * r;
    ScaleSquare(r, ar, a, k);
    ScaledNonNegative(a, r, ar);
    RootUnique(q, ar, Variance(t));
  }

  lemma ImageDifference(a: real, b: real, x: real, u: real, y: real, v: real)
    requires Image(a, b, x, u) && Image(a, b, y, v)
    ensures Image(a, 0.0, y - x, v - u)
  {
  }

  /** Both methods' parameters follow the column. */
  lemma FitAffine(s: seq<real>, t: seq<real>, a: real, b: real, method_: Method, sqrt: real -> real)
    requires IsSqrt(sqrt) && s != [] && IsAffine(s, t, a, b) && a > 0.0
    ensures Image(a, b, RawFit(s, method_, sqrt).0, RawFit(t, method_, sqrt).0)
    ensures Image(a, 0.0, RawFit(s, method_, sqrt).1, RawFit(t, method_, sqrt).1)
  {
    if method_ == MinMax {
      MinAffine(s, t, a, b);
      MaxAffine(s, t, a, b);
      ImageDifference(a, b, MinOf(s), MinOf(t), MaxOf(s), MaxOf(t));
    } else {
      MeanAffine(s, t, a, b);
      DeviationAffine(s, t, a, b, sqrt);
    }
  }

  lemma CancelScale(x: real, offset: real, scale: real, a: real, b: real, y: real, offset': real, scale': real)
    requires a > 0.0 && scale != 0.0
    requires Image(a, b, x, y) && Image(a, b, offset, offset') && Image(a, 0.0, scale, scale')
    ensures scale' != 0.0 && (y - offset') / scale' == (x - offset) / scale
  {
    assert y - offset' == a * (x - offset);
    assert scale' != 0.0;
    assert ((x - offset) / scale) * (a * scale) == a * (x - offset) by {
      assert (x - offset) / scale * scale == x - offset;
    }
  }

  /** Two fits of which the second follows the first give the same image. */
  lemma ApplyFollows(s: seq<real>, t: seq<real>, a: real, b: real, offset: real, scale: real,
                     offset': real, scale': real)
    requires IsAffine(s, t, a, b) && a > 0.0 && scale != 0.0
    requires Image(a, b, offset, offset') && Image(a, 0.0, scale, scale')
    ensures scale' != 0.0
    ensures Apply(Fitted(offset', scale', false), t) == Apply(Fitted(offset, scale, false), s)
  {
    CancelScale(offset, offset, scale, a, b, offset', offset', scale');
    forall i | 0 <= i < |s| ensures (t[i] - offset') / scale' == (s[i] - offset) / scale {
      CancelScale(s[i], offset, scale, a, b, t[i], offset', scale');
    }
  }

  lemma ZeroScale(a: real, scale: real, scale': real)
    requires a > 0.0 && Image(a, 0.0, scale, scale')
    ensures scale' == 0.0 <==> scale == 0.0
  {
  }

  /** Rescaling or shifting a column does not change its normal form. */
  lemma AffineInvariant(s: seq<real>, t: seq<real>, a: real, b: real, method_: Method, sqrt: real -> real)
    requires IsSqrt(sqrt) && IsAffine(s, t, a, b) && a > 0.0
    ensures NormalizeColumn(t, method_, sqrt) == NormalizeColumn(s, method_, sqrt)
  {
    if s != [] {
      var (offset, scale) := RawFit(s, method_, sqrt);
      var (offset', scale') := RawFit(t, method_, sqrt);
      FitAffine(s, t, a, b, method_, sqrt);
      ZeroScale(a, scale, scale');
      if scale != 0.0 {
        ApplyFollows(s, t, a, b, offset, scale, offset', scale');
      }
    }
  }

  // What the normal form is.

  lemma {:induction false} ExtremesBound(s: seq<real>, i: nat)
    requires i < |s|
    ensures MinOf(s) <= s[i] <= MaxOf(s)
  {
    if i < |s| - 1 {
      ExtremesBound(s[..|s| - 1], i);
    }
  }

  lemma {:induction false} ExtremesAttained(s: seq<real>)
    requires s != []
    ensures MinOf(s) in s && MaxOf(s) in s
  {
    if |s| > 1 {
      ExtremesAttained(s[..|s| - 1]);
      assert s == s[..|s| - 1] + [s[|s| - 1]];
    }
  }

  ghost predicate Constant(s: seq<real>) {
    forall i, j :: 0 <= i < |s| && 0 <= j < |s| ==> s[i] == s[j]
  }

  /** The scale is never negative, and it vanishes exactly on constant columns. */
  lemma ScaleIsZeroIff(s: seq<real>, method_: Method, sqrt: real -> real)
    requires IsSqrt(sqrt) && s != []
    ensures RawFit(s, method_, sqrt).1 >= 0.0
    ensures RawFit(s, method_, sqrt).1 == 0.0 <==> Constant(s)
  {
    match method_
    case MinMax =>
      ExtremesAttained(s);
      ExtremesBound(s, 0);
      forall i | 0 <= i < |s| ensures MinOf(s) <= s[i] <= MaxOf(s) {
        ExtremesBound(s, i);
      }
    case ZScore =>
      VarianceNonNegative(s);
      assert RootOf(sqrt, Variance(s));
      SquareZero(sqrt(Variance(s)), Variance(s));
      ZeroVariance(s);
  }

  lemma {:induction false} SumOfConstant(s: seq<real>, c: real)
    requires forall i :: 0 <= i < |s| ==> s[i] == c
    ensures SumReal(s) == c * |s| as real
  {
    if s != [] {
      SumOfConstant(s[..|s| - 1], c);
      assert |s| as real == |s[..|s| - 1]| as real + 1.0;
    }
  }

  lemma {:induction false} ZeroSum(d: seq<real>, i: nat)
    requires i < |d| && SumReal(d) == 0.0 && forall k :: 0 <= k < |d| ==> d[k] >= 0.0
    ensures d[i] == 0.0
  {
    SumNonNegative(d[..|d| - 1]);
    if i < |d| - 1 {
      ZeroSum(d[..|d| - 1], i);
    }
  }

  lemma SquareZero(x: real, k: real)
    requires k == x * x
    ensures k >= 0.0 && (k == 0.0 <==> x == 0.0)
  {
    if x != 0.0 {
      SameSignProduct(x, x, k);
    }
  }

  lemma MeanOfConstant(s: seq<real>, c: real)
    requires s != [] && forall i :: 0 <= i < |s| ==> s[i] == c
    ensures Mean(s) == c
  {
    SumOfConstant(s, c);
    QuotientOfProduct(c, |s| as real);
  }

  lemma QuotientOfProduct(c: real, n: real)
    requires n > 0.0
    ensures (c * n) / n == c
  {
  }

  lemma ZeroQuotient(x: real, n: real)
    requires n > 0.0 && x / n == 0.0
    ensures x == 0.0
  {
    assert x == (x / n) * n;
  }

  lemma VarianceOfConstant(s: seq<real>)
    requires s != [] && Constant(s)
    ensures Variance(s) == 0.0
  {
    MeanOfConstant(s, s[0]);
    var d := Deviations(s, s[0]);
    forall i | 0 <= i < |d| ensures d[i] == 0.0 {
      assert s[i] - s[0] == 0.0;
    }
    MeanOfConstant(d, 0.0);
  }

  lemma ZeroDeviation(s: seq<real>, m: real, i: nat)
    requires SumReal(Deviations(s, m)) == 0.0 && i < |s|
    ensures s[i] == m
  {
    var d := Deviations(s, m);
    forall k | 0 <= k < |d| ensures d[k] >= 0.0 {
      SquareZero(s[k] - m, d[k]);
    }
    ZeroSum(d, i);
    SquareZero(s[i] - m, d[i]);
  }

  lemma ZeroVariance(s: seq<real>)
    requires s != []
    ensures Variance(s) == 0.0 <==> Constant(s)
  {
    if Constant(s) {
      VarianceOfConstant(s);
    }
    if Variance(s) == 0.0 {
      ZeroQuotient(SumReal(Deviations(s, Mean(s))), |s| as real);
      forall i | 0 <= i < |s| ensures s[i] == Mean(s) {
        ZeroDeviation(s, Mean(s), i);
      }
    }
  }

  lemma DividedImage(x: real, offset: real, scale: real, a: real, b: real)
    requires scale > 0.0 && a == 1.0 / scale && b == -(a * offset)
    ensures Image(a, b, x, (x - offset) / scale)
  {
    assert (x - offset) / scale == (1.0 / scale) * (x - offset);
    assert a * (x - offset) == a * x - a * offset;
  }

  lemma UnitImage(scale: real, a: real)
    requires scale > 0.0 && a == 1.0 / scale
    ensures a > 0.0 && Image(a, 0.0, scale, 1.0)
  {
  }

  lemma ZeroOverScale(scale: real)
    requires scale > 0.0
    ensures 0.0 / scale == 0.0
  {
  }

  /** The normal form of a non-constant column is itself an affine image of the column. */
  lemma NormalFormIsAffine(s: seq<real>, method_: Method, sqrt: real -> real) returns (a: real, b: real)
    requires IsSqrt(sqrt) && s != [] && !Constant(s)
    ensures a > 0.0 && IsAffine(s, NormalizeColumn(s, method_, sqrt), a, b)
    ensures Image(a, b, RawFit(s, method_, sqrt).0, 0.0) && Image(a, 0.0, RawFit(s, method_, sqrt).1, 1.0)
  {
    ScaleIsZeroIff(s, method_, sqrt);
    a, b := AppliedIsAffine(s, RawFit(s, method_, sqrt).0, RawFit(s, method_, sqrt).1);
  }

  lemma AppliedIsAffine(s: seq<real>, offset: real, scale: real) returns (a: real, b: real)
    requires scale > 0.0
    ensures a > 0.0 && IsAffine(s, Apply(Fitted(offset, scale, false), s), a, b)
    ensures Image(a, b, offset, 0.0) && Image(a, 0.0, scale, 1.0)
  {
    a := 1.0 / scale;
    b := -(a * offset);
    UnitImage(scale, a);
    DividedImage(offset, offset, scale, a, b);
    ZeroOverScale(scale);
    forall i | 0 <= i < |s| ensures Image(a, b, s[i], Apply(Fitted(offset, scale, false), s)[i]) {
      DividedImage(s[i], offset, scale, a, b);
    }
  }

  /** Fitted again, a normalized non-constant column has offset zero and scale one: for min-max its
      least value is 0 and its greatest 1, for z-score its mean is 0 and its deviation 1. */
  lemma NormalFormIsStandard(s: seq<real>, method_: Method, sqrt: real -> real)
    requires IsSqrt(sqrt) && s != [] && !Constant(s)
    ensures RawFit(NormalizeColumn(s, method_, sqrt), method_, sqrt) == (0.0, 1.0)
  {
    var a, b := NormalFormIsAffine(s, method_, sqrt);
    FitAffine(s, NormalizeColumn(s, method_, sqrt), a, b, method_, sqrt);
  }

  /** Constant columns become zero. */
  lemma ConstantBecomesZero(s: seq<real>, method_: Method, sqrt: real -> real)
    requires IsSqrt(sqrt) && Constant(s)
    ensures NormalizeColumn(s, method_, sqrt) == seq(|s|, _ => 0.0)
  {
    if s != [] {
      ScaleIsZeroIff(s, method_, sqrt);
    }
  }

  /** Normalizing twice is normalizing once. */
  lemma Idempotent(s: seq<real>, method_: Method, sqrt: real -> real)
    requires IsSqrt(sqrt)
    ensures NormalizeColumn(NormalizeColumn(s, method_, sqrt), method_, sqrt) == NormalizeColumn(s, method_, sqrt)
  {
    var t := NormalizeColumn(s, method_, sqrt);
    if Constant(s) {
      ConstantBecomesZero(s, method_, sqrt);
      ConstantBecomesZero(t, method_, sqrt);
    } else {
      NormalFormIsStandard(s, method_, sqrt);
      forall i | 0 <= i < |t| ensures (t[i] - 0.0) / 1.0 == t[i] {
      }
    }
  }

  /** The state of a column that is in normal form already. */
  function Standard(st: ColumnState): ColumnState {
    if st.Undefined? then Undefined else Fitted(0.0, 1.0, st.zero)
  }

  lemma NormalColumn(s: seq<real>, method_: Method, sqrt: real -> real)
    requires IsSqrt(sqrt)
    ensures Fit(NormalizeColumn(s, method_, sqrt), method_, sqrt) == Standard(Fit(s, method_, sqrt))
    ensures NormalizeColumn(NormalizeColumn(s, method_, sqrt), method_, sqrt) == NormalizeColumn(s, method_, sqrt)
  {
    Idempotent(s, method_, sqrt);
    if s != [] {
      var t := NormalizeColumn(s, method_, sqrt);
      ScaleIsZeroIff(s, method_, sqrt);
      if Constant(s) {
        ConstantBecomesZero(s, method_, sqrt);
        ScaleIsZeroIff(t, method_, sqrt);
        assert t[0] == 0.0;
        if method_ == MinMax {
          ExtremesAttained(t);
        } else {
          MeanOfConstant(t, 0.0);
        }
      } else {
        NormalFormIsStandard(s, method_, sqrt);
      }
    }
  }

  /** Normalizing a normalized tensor changes nothing and fits the standard state to every column;
      applying the first states to the original tensor gives the result again. */
  lemma TensorTwice(columns: seq<seq<real>>, method_: Method, sqrt: real -> real)
    requires IsSqrt(sqrt)
    ensures var r := NormalizeTensor(columns, Some(method_), sqrt);
            r.Ok? ==>
              var (t, states) := r.value;
              && NormalizeTensor(t, Some(method_), sqrt)
                 == Ok((t, seq(|states|, i requires 0 <= i < |states| => Standard(states[i]))))
              && forall i :: 0 <= i < |columns| ==> Apply(states[i], columns[i]) == t[i]
  {
    hide Fit, RawFit;
    var r := NormalizeTensor(columns, Some(method_), sqrt);
    if r.Ok? {
      var (t, states) := r.value;
      forall i | 0 <= i < |columns|
        ensures Fit(t[i], method_, sqrt) == Standard(states[i]) && NormalizeColumn(t[i], method_, sqrt) == t[i]
        ensures |t[i]| == |columns[i]|
      {
        NormalColumn(columns[i], method_, sqrt);
      }
      forall i | 0 <= i < |t| ensures t[i] == [] <==> columns[i] == [] {
        assert |t[i]| == |columns[i]|;
      }
      var again := NormalizeTensor(t, Some(method_), sqrt);
      assert again.Ok?;
      assert again.value.0 == t;
      assert again.value.1 == seq(|states|, i requires 0 <= i < |states| => Standard(states[i]));
    }
  }

  /** Exactly two things fail: an unknown method, and the extremes of a column without rows. */
  lemma TensorFailsIff(columns: seq<seq<real>>, method_: Option<Method>, sqrt: real -> real)
    ensures var r := NormalizeTensor(columns, method_, sqrt);
            && (r == Err(UnknownMethod) <==> method_.None?)
            && (r == Err(NoRows) <==> method_ == Some(MinMax) && [] in columns)
            && (r.Ok? ==> |r.value.0| == |r.value.1| == |columns|
                          && forall i :: 0 <= i < |columns| ==>
                               r.value.1[i] == Fit(columns[i], method_.value, sqrt)
                               && r.value.0[i] == Apply(r.value.1[i], columns[i]))
  {
    hide Fit, Apply;
  }

  /** Min-max: every value lands in the unit interval, both ends are attained, and order is kept. */
  lemma MinMaxLaws(s: seq<real>, sqrt: real -> real)
    requires IsSqrt(sqrt) && !Constant(s)
    ensures var t := NormalizeColumn(s, MinMax, sqrt);
            && (forall i :: 0 <= i < |t| ==> 0.0 <= t[i] <= 1.0)
            && 0.0 in t && 1.0 in t
            && (forall i, j :: 0 <= i < |t| && 0 <= j < |t| ==> (s[i] < s[j] <==> t[i] < t[j]))
  {
    var t := NormalizeColumn(s, MinMax, sqrt);
    var a, b := NormalFormIsAffine(s, MinMax, sqrt);
    NormalFormIsStandard(s, MinMax, sqrt);
    ExtremesAttained(t);
    forall i | 0 <= i < |t| ensures 0.0 <= t[i] <= 1.0 {
      ExtremesBound(t, i);
    }
    forall i, j | 0 <= i < |t| && 0 <= j < |t| ensures s[i] < s[j] <==> t[i] < t[j] {
      AffineOrder(a, b, s[i], t[i], s[j], t[j]);
    }
  }

  /** Z-score: mean zero and population variance one. */
  lemma ZScoreLaws(s: seq<real>, sqrt: real -> real)
    requires IsSqrt(sqrt) && !Constant(s)
    ensures var t := NormalizeColumn(s, ZScore, sqrt);
            t != [] && Mean(t) == 0.0 && Variance(t) == 1.0
  {
    var t := NormalizeColumn(s, ZScore, sqrt);
    NormalFormIsStandard(s, ZScore, sqrt);
    VarianceNonNegative(t);
    assert RootOf(sqrt, Variance(t));
  }
}
