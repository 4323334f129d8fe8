/** The fragility score of engine/mps/naive.py, over the reals.

    `ln`, `sqrt` and the singular value routine are parameters. All that is asked of `ln` is that it
    turns products into sums and lies below its tangent at one, touching it only there. */
module Fragility {
  import opened Prelude

  const P_EPS: real := 0.000000000000001

  /** A matrix by its shape and cells. */
  datatype Tensor = Tensor(rows: nat, cols: nat, cell: (nat, nat) -> real)

  datatype ScoreError = NotSquare | WrongFeatureRows | WrongWeights | NegativeMass

  ghost predicate ProductRule(ln: real -> real, x: real, y: real) {
    x > 0.0 && y > 0.0 ==> ln(x * y) == ln(x) + ln(y)
  }

  ghost predicate TangentRule(ln: real -> real, x: real) {
    x > 0.0 ==> ln(x) <= x - 1.0 && (ln(x) == x - 1.0 ==> x == 1.0)
  }

  ghost predicate IsLog(ln: real -> real) {
    (forall x, y :: ProductRule(ln, x, y)) && (forall x :: TangentRule(ln, x))
  }

  function Squares(sv: seq<real>): seq<real> {
    seq(|sv|, i requires 0 <= i < |sv| => sv[i] * sv[i])
  }

  /** Born probabilities. */
  function Born(sv: seq<real>): seq<real>
    requires SumReal(Squares(sv)) != 0.0
  {
    var total := SumReal(Squares(sv));
    seq(|sv|, i requires 0 <= i < |sv| => sv[i] * sv[i] / total)
  }

  /** The probabilities above the cut-off. */
  function Kept(p: seq<real>): seq<real> {
    if p == [] then []
    else Kept(p[..|p| - 1]) + if p[|p| - 1] > P_EPS then [p[|p| - 1]] else []
  }

  /** Minus the sum of `p ln p`. */
  function LogTerm(p: real, ln: real -> real): real { p * ln(p) }

  function Entropy(p: seq<real>, ln: real -> real): real {
    if p == [] then 0.0
    else Entropy(p[..|p| - 1], ln) - LogTerm(p[|p| - 1], ln)
  }

  /** Steps 4 to 6, for `n` nodes: zero without coupling, otherwise the entropy of the kept
      probabilities relative to its maximum. The second disjunct only keeps the quotient total; it is
      never taken (LogOfCount). */
  function SpectrumScore(sv: seq<real>, n: nat, ln: real -> real): real {
    if SumReal(Squares(sv)) == 0.0 || ln(n as real) == 0.0 then 0.0
    else Entropy(Kept(Born(sv)), ln) / ln(n as real)
  }

  function Mass(features: Tensor, weights: seq<real>, node: nat): real
    requires |weights| == features.cols
  {
    MassUpTo(features, weights, node, |weights|)
  }

  function MassUpTo(features: Tensor, weights: seq<real>, node: nat, k: nat): real
    requires k <= |weights|
  {
    if k == 0 then 0.0
    else MassUpTo(features, weights, node, k - 1) + features.cell(node, k - 1) * weights[k - 1]
  }

  function Masses(features: Tensor, weights: seq<real>): seq<real>
    requires |weights| == features.cols
  {
    seq(features.rows, i requires 0 <= i < features.rows => Mass(features, weights, i))
  }

  /** `W = diag(sqrt m) A diag(sqrt m)`. */
  function Coupling(a: Tensor, m: seq<real>, sqrt: real -> real): Tensor {
    Tensor(a.rows, a.cols, (i: nat, j: nat) =>
      if i < |m| && j < |m| then sqrt(m[i]) * a.cell(i, j) * sqrt(m[j]) else 0.0)
  }

  /** Without weights every column counts alike. */
  function WeightsOf(features: Tensor, weights: Option<seq<real>>): seq<real> {
    if weights.Some? then weights.value else seq(features.cols, _ => 1.0)
  }

  function FragilityRaw(a: Tensor, features: Tensor, weights: Option<seq<real>>, sqrt: real -> real,
                        svdvals: Tensor -> seq<real>, ln: real -> real): Result<real, ScoreError>
  {
    if a.rows != a.cols then Err(NotSquare)
    else if features.rows != a.rows then Err(WrongFeatureRows)
    else if a.rows < 2 then Ok(0.0)
    else
      var w := WeightsOf(features, weights);
      if |w| != features.cols then Err(WrongWeights)
      else
        var m := Masses(features, w);
        if exists i :: 0 <= i < |m| && m[i] < 0.0 then Err(NegativeMass)
        else if SumReal(m) == 0.0 then Ok(0.0)
        else Ok(SpectrumScore(svdvals(Coupling(a, m, sqrt)), a.rows, ln))
  }

  // Logarithms.

  lemma LogProduct(ln: real -> real, x: real, y: real)
    requires IsLog(ln) && x > 0.0 && y > 0.0
    ensures ln(x * y) == ln(x) + ln(y)
  {
    assert ProductRule(ln, x, y);
  }

  lemma LogTangent(ln: real -> real, x: real)
    requires IsLog(ln) && x > 0.0
    ensures ln(x) <= x - 1.0 && (ln(x) == x - 1.0 ==> x == 1.0)
  {
    assert TangentRule(ln, x);
  }

  lemma LogOne(ln: real -> real)
    requires IsLog(ln)
    ensures ln(1.0) == 0.0
  {
    LogProduct(ln, 1.0, 1.0);
    assert 1.0 * 1.0 == 1.0;
  }

  lemma LogInverse(ln: real -> real, x: real)
    requires IsLog(ln) && x > 0.0
    ensures 1.0 / x > 0.0 && ln(1.0 / x) == -ln(x)
  {
    var y := 1.0 / x;
    assert y > 0.0 && x * y == 1.0;
    LogOne(ln);
    LogProduct(ln, x, y);
    assert ln(x * y) == ln(1.0);
  }

  /** The other tangent bound. */
  lemma LogBelow(ln: real -> real, x: real)
    requires IsLog(ln) && x > 0.0
    ensures ln(x) >= 1.0 - 1.0 / x
  {
    LogInverse(ln, x);
    LogTangent(ln, 1.0 / x);
  }

  lemma InverseAtMost(x: real, y: real)
    requires 0.0 < y <= x
    ensures 1.0 / x <= 1.0 / y
  {
    assert 1.0 / y - 1.0 / x == (x - y) / (x * y);
    assert x * y > 0.0;
  }

  /** The normalizer is positive, and at least one from four nodes on. */
  lemma LogOfCount(ln: real -> real, n: nat)
    requires IsLog(ln) && n >= 2
    ensures ln(n as real) >= 0.5
    ensures n >= 4 ==> ln(n as real) >= 1.0
  {
    var x := n as real;
    LogBelow(ln, x);
    InverseAtMost(x, 2.0);
    if n >= 4 {
      var y := x / 4.0;
      LogBelow(ln, 2.0);
      LogProduct(ln, 2.0, 2.0);
      LogBelow(ln, y);
      InverseAtMost(y, 1.0);
      LogProduct(ln, 4.0, y);
      assert 2.0 * 2.0 == 4.0 && 4.0 * y == x;
    }
  }

  // Probabilities.

  lemma SquaresPrefix(sv: seq<real>)
    requires sv != []
    ensures Squares(sv)[..|sv| - 1] == Squares(sv[..|sv| - 1])
  {
    forall i | 0 <= i < |sv| - 1 ensures Squares(sv)[i] == Squares(sv[..|sv| - 1])[i] {
      assert sv[..|sv| - 1][i] == sv[i];
    }
  }

  lemma {:induction false} SquaresNonNegative(sv: seq<real>)
    ensures SumReal(Squares(sv)) >= 0.0
    ensures SumReal(Squares(sv)) == 0.0 ==> forall i :: 0 <= i < |sv| ==> sv[i] * sv[i] == 0.0
  {
    if sv != [] {
      SquaresNonNegative(sv[..|sv| - 1]);
      SquaresPrefix(sv);
      assert sv[|sv| - 1] * sv[|sv| - 1] >= 0.0;
      if SumReal(Squares(sv)) == 0.0 {
        forall i | 0 <= i < |sv| ensures sv[i] * sv[i] == 0.0 {
          if i < |sv| - 1 {
            assert sv[..|sv| - 1][i] == sv[i];
          }
        }
      }
    }
  }

  lemma {:induction false} SumScaled(s: seq<real>, t: seq<real>, c: real)
    requires |s| == |t| && forall i :: 0 <= i < |s| ==> t[i] == c * s[i]
    ensures SumReal(t) == c * SumReal(s)
  {
    if s != [] {
      SumScaled(s[..|s| - 1], t[..|t| - 1], c);
    }
  }

  lemma DivideAsScale(x: real, total: real)
    requires total != 0.0
    ensures x / total == (1.0 / total) * x
  {
  }

  /** Born probabilities are a distribution. */
  lemma BornIsDistribution(sv: seq<real>)
    requires SumReal(Squares(sv)) != 0.0
    ensures SumReal(Born(sv)) == 1.0
    ensures forall i :: 0 <= i < |sv| ==> Born(sv)[i] >= 0.0
  {
    var s, total := Squares(sv), SumReal(Squares(sv));
    SquaresNonNegative(sv);
    forall i | 0 <= i < |sv| ensures Born(sv)[i] == (1.0 / total) * s[i] && Born(sv)[i] >= 0.0 {
      DivideAsScale(s[i], total);
      QuotientNonNegative(s[i], total);
    }
    SumScaled(s, Born(sv), 1.0 / total);
    assert (1.0 / total) * total == 1.0;
  }

  lemma QuotientNonNegative(x: real, y: real)
    requires x >= 0.0 && y > 0.0
    ensures x / y >= 0.0
  {
  }

  lemma {:induction false} SumDominates(p: seq<real>, i: nat)
    requires i < |p| && forall k :: 0 <= k < |p| ==> p[k] >= 0.0
    ensures 0.0 <= p[i] <= SumReal(p)
  {
    SumNonNegative(p[..|p| - 1]);
    if i < |p| - 1 {
      SumDominates(p[..|p| - 1], i);
    }
  }

  /** What the cut-off removes is at most `P_EPS` per mode. */
  lemma {:induction false} KeptSum(p: seq<real>)
    requires forall k :: 0 <= k < |p| ==> p[k] >= 0.0
    ensures |Kept(p)| <= |p| && (|Kept(p)| == |p| ==> Kept(p) == p)
    ensures SumReal(p) - (|p| - |Kept(p)|) as real * P_EPS <= SumReal(Kept(p)) <= SumReal(p)
  {
    if p != [] {
      var front, last := p[..|p| - 1], p[|p| - 1];
      KeptSum(front);
      assert p == front + [last];
      if last > P_EPS {
        assert Kept(p)[..|Kept(front)|] == Kept(front);
      } else {
        assert Kept(p) == Kept(front);
        assert (|p| - |Kept(p)|) as real == (|front| - |Kept(front)|) as real + 1.0;
      }
    }
  }

  /** The kept probabilities are those above the cut-off. */
  lemma {:induction false} KeptMembers(p: seq<real>)
    ensures forall x :: x in Kept(p) <==> x in p && x > P_EPS
  {
    if p != [] {
      var front, last := p[..|p| - 1], p[|p| - 1];
      KeptMembers(front);
      assert p == front + [last];
    }
  }

  // The entropy bound.

  /** Gibbs' inequality for one mode of `n`: equality only at the flat value `1/n`. */
  lemma GibbsTerm(ln: real -> real, p: real, n: nat)
    requires IsLog(ln) && p > 0.0 && n >= 1
    ensures var N := n as real;
            -p * ln(p) <= p * ln(N) + 1.0 / N - p
            && (-p * ln(p) == p * ln(N) + 1.0 / N - p ==> p == 1.0 / N)
  {
    var N := n as real;
    var x := 1.0 / (p * N);
    assert p * N > 0.0;
    LogProduct(ln, p, N);
    LogInverse(ln, p * N);
    LogTangent(ln, x);
    var gap := x - 1.0 - ln(x);
    assert gap >= 0.0 && ln(x) == -ln(p) - ln(N);
    assert p * x == 1.0 / N by {
      assert p * x * N == 1.0;
    }
    assert p * gap == 1.0 / N - p + p * ln(p) + p * ln(N) by {
      assert p * gap == p * x - p - p * ln(x);
      assert p * ln(x) == -p * ln(p) - p * ln(N);
    }
    ProductZero(p, gap);
    if gap == 0.0 {
      assert x == 1.0 && p * N == 1.0;
    }
  }

  lemma ProductZero(p: real, gap: real)
    requires p > 0.0 && gap >= 0.0
    ensures p * gap >= 0.0 && (p * gap == 0.0 ==> gap == 0.0)
  {
  }

  ghost predicate AllEqual(p: seq<real>, c: real) {
    forall k :: 0 <= k < |p| ==> p[k] == c
  }

  lemma AllEqualPush(p: seq<real>, c: real)
    requires p != [] && AllEqual(p[..|p| - 1], c) && p[|p| - 1] == c
    ensures AllEqual(p, c)
  {
    forall k | 0 <= k < |p| ensures p[k] == c {
      if k < |p| - 1 {
        assert p[..|p| - 1][k] == p[k];
      }
    }
  }

  /** What one mode can add to the bound. */
  function GibbsShare(p: real, L: real, n: nat): real
    requires n >= 1
  {
    p * L + 1.0 / n as real - p
  }

  lemma GibbsShareBound(ln: real -> real, p: real, n: nat)
    requires IsLog(ln) && p > 0.0 && n >= 1
    ensures -LogTerm(p, ln) <= GibbsShare(p, ln(n as real), n)
    ensures -LogTerm(p, ln) == GibbsShare(p, ln(n as real), n) ==> p == 1.0 / n as real
  {
    GibbsTerm(ln, p, n);
    assert -p * ln(p) == -(p * ln(p));
  }

  /** The bound for the sum of `m` modes that total `q`. */
  function GibbsBound(q: real, m: nat, L: real, n: nat): real
    requires n >= 1
  {
    q * L + m as real * (1.0 / n as real) - q
  }

  lemma GibbsBoundAdds(q: real, p: real, m: nat, L: real, n: nat)
    requires n >= 1
    ensures GibbsBound(q + p, m + 1, L, n) == GibbsBound(q, m, L, n) + GibbsShare(p, L, n)
  {
    assert (q + p) * L == q * L + p * L;
    var c := 1.0 / n as real;
    assert (m + 1) as real == m as real + 1.0;
    assert (m + 1) as real * c == m as real * c + c;
  }

  lemma GibbsBoundEmpty(L: real, n: nat)
    requires n >= 1
    ensures GibbsBound(0.0, 0, L, n) == 0.0
  {
  }

  /** Summed over the kept modes. */
  lemma {:induction false} GibbsSum(ln: real -> real, p: seq<real>, n: nat)
    requires IsLog(ln) && n >= 1 && forall k :: 0 <= k < |p| ==> p[k] > 0.0
    ensures var bound := GibbsBound(SumReal(p), |p|, ln(n as real), n);
            Entropy(p, ln) <= bound && (Entropy(p, ln) == bound ==> AllEqual(p, 1.0 / n as real))
  {
    hide GibbsBound, GibbsShare, LogTerm;
    if p != [] {
      var front, last := p[..|p| - 1], p[|p| - 1];
      GibbsSum(ln, front, n);
      GibbsShareBound(ln, last, n);
      GibbsBoundAdds(SumReal(front), last, |front|, ln(n as real), n);
      if Entropy(p, ln) == GibbsBound(SumReal(p), |p|, ln(n as real), n) {
        AllEqualPush(p, 1.0 / n as real);
      }
    } else {
      GibbsBoundEmpty(ln(n as real), n);
    }
  }

  lemma ProductMonotone(a: real, x: real, y: real)
    requires a >= 0.0 && x <= y
    ensures a * x <= a * y
    ensures a > 0.0 && x < y ==> a * x < a * y
  {
    var d := a * (y - x);
    assert a * y - a * x == d;
  }

  lemma SharesOfOne(m: nat, n: nat)
    requires n >= 1 && m <= n
    ensures m as real * (1.0 / n as real) + (n - m) as real * (1.0 / n as real) == 1.0
  {
    var u := 1.0 / n as real;
    assert m as real + (n - m) as real == n as real && n as real * u == 1.0;
    assert (m as real + (n - m) as real) * u == m as real * u + (n - m) as real * u;
  }

  lemma MissingShare(m: nat, n: nat, missing: real)
    requires n >= 1 && m <= n && missing == (n - m) as real * (1.0 / n as real)
    ensures missing >= 0.0 && (m < n ==> missing > 0.0)
    ensures n <= 3 ==> missing >= (n - m) as real * P_EPS && (m < n ==> missing > (n - m) as real * P_EPS)
  {
    var u, rest := 1.0 / n as real, (n - m) as real;
    assert u > 0.0;
    ProductMonotone(rest, 0.0, u);
    if m < n {
      assert rest > 0.0;
      SameSignProduct(rest, u, missing);
    }
    if n <= 3 {
      InverseAtMost(3.0, n as real);
      assert P_EPS < 1.0 / 3.0 <= u;
      ProductMonotone(rest, P_EPS, u);
      assert missing == rest * u >= rest * P_EPS;
    }
  }

  lemma SlackAtLeast(q: real, L: real, slack: real)
    requires q <= 1.0 && L >= 0.0 && slack == (1.0 - q) * L
    ensures slack >= 0.0 && (L >= 1.0 ==> slack >= 1.0 - q)
  {
    ProductMonotone(1.0 - q, 0.0, L);
    if L >= 1.0 {
      ProductMonotone(1.0 - q, 1.0, L);
    }
  }

  lemma BoundBySlack(L: real, q: real, m: nat, n: nat, missing: real, slack: real)
    requires n >= 1 && m <= n && missing == (n - m) as real * (1.0 / n as real) && slack == (1.0 - q) * L
    ensures GibbsBound(q, m, L, n) == L - slack + (1.0 - missing) - q
  {
    SharesOfOne(m, n);
    assert L - q * L == slack;
  }

  /** From the Gibbs sum to the bound: what the cut-off removed never lets the entropy exceed `ln n`. */
  lemma GibbsSlack(L: real, q: real, m: nat, n: nat)
    requires n >= 2 && m <= n && L >= 0.5 && (n >= 4 ==> L >= 1.0)
    requires 1.0 - (n - m) as real * P_EPS <= q <= 1.0
    ensures GibbsBound(q, m, L, n) <= L
    ensures m < n ==> GibbsBound(q, m, L, n) < L
  {
    hide GibbsBound;
    var missing, slack := (n - m) as real * (1.0 / n as real), (1.0 - q) * L;
    BoundBySlack(L, q, m, n, missing, slack);
    MissingShare(m, n, missing);
    SlackAtLeast(q, L, slack);
  }

  lemma {:induction false} EntropyNonNegative(ln: real -> real, p: seq<real>)
    requires IsLog(ln) && forall k :: 0 <= k < |p| ==> 0.0 < p[k] <= 1.0
    ensures Entropy(p, ln) >= 0.0
    ensures Entropy(p, ln) == 0.0 ==> AllEqual(p, 1.0)
  {
    if p != [] {
      var front, last := p[..|p| - 1], p[|p| - 1];
      EntropyNonNegative(ln, front);
      LogTangent(ln, last);
      assert ln(last) <= 0.0;
      ProductZero(last, -ln(last));
      assert last * -ln(last) == -(last * ln(last));
      if Entropy(p, ln) == 0.0 {
        AllEqualPush(p, 1.0);
      }
    }
  }

  /** All that the score needs to know about the kept probabilities. */
  lemma KeptFacts(sv: seq<real>)
    requires SumReal(Squares(sv)) != 0.0
    ensures var p, kept := Born(sv), Kept(Born(sv));
            && |p| == |sv| && |kept| <= |sv| && (|kept| == |sv| ==> kept == p)
            && (forall k :: 0 <= k < |kept| ==> 0.0 < kept[k] <= 1.0)
            && 1.0 - (|sv| - |kept|) as real * P_EPS <= SumReal(kept) <= 1.0
  {
    var p, kept := Born(sv), Kept(Born(sv));
    BornIsDistribution(sv);
    KeptSum(p);
    KeptMembers(p);
    forall k | 0 <= k < |kept| ensures 0.0 < kept[k] <= 1.0 {
      assert kept[k] in kept;
      var i :| 0 <= i < |p| && p[i] == kept[k];
      SumDominates(p, i);
    }
  }

  lemma RatioInUnit(x: real, y: real)
    requires 0.0 <= x <= y && y > 0.0
    ensures 0.0 <= x / y <= 1.0
    ensures x / y == 0.0 <==> x == 0.0
    ensures x / y == 1.0 <==> x == y
  {
  }

  /** The score of any spectrum of `n >= 2` values is in the unit interval. */
  lemma ScoreInUnit(sv: seq<real>, ln: real -> real)
    requires IsLog(ln) && |sv| >= 2
    ensures 0.0 <= SpectrumScore(sv, |sv|, ln) <= 1.0
  {
    if SumReal(Squares(sv)) != 0.0 {
      ScoreBounds(sv, ln);
    }
  }

  lemma ScoreBounds(sv: seq<real>, ln: real -> real)
    requires IsLog(ln) && |sv| >= 2 && SumReal(Squares(sv)) != 0.0
    ensures var kept, L := Kept(Born(sv)), ln(|sv| as real);
            && L > 0.0 && SpectrumScore(sv, |sv|, ln) == Entropy(kept, ln) / L
            && 0.0 <= Entropy(kept, ln) <= L && 0.0 <= SpectrumScore(sv, |sv|, ln) <= 1.0
            && (Entropy(kept, ln) == 0.0 ==> AllEqual(kept, 1.0))
            && (Entropy(kept, ln) == L ==> kept == Born(sv) && AllEqual(kept, 1.0 / |sv| as real))
  {
    var kept, L, n := Kept(Born(sv)), ln(|sv| as real), |sv|;
    KeptFacts(sv);
    LogOfCount(ln, n);
    EntropyNonNegative(ln, kept);
    GibbsSum(ln, kept, n);
    GibbsSlack(L, SumReal(kept), |kept|, n);
    RatioInUnit(Entropy(kept, ln), L);
  }

  lemma {:induction false} EntropyOfFlat(ln: real -> real, p: seq<real>, c: real)
    requires AllEqual(p, c)
    ensures Entropy(p, ln) == |p| as real * (-(c * ln(c)))
  {
    if p != [] {
      EntropyOfFlat(ln, p[..|p| - 1], c);
      assert p[|p| - 1] == c;
      assert |p| as real == |p[..|p| - 1]| as real + 1.0;
    }
  }

  lemma {:induction false} KeptAll(p: seq<real>)
    requires forall k :: 0 <= k < |p| ==> p[k] > P_EPS
    ensures Kept(p) == p
  {
    if p != [] {
      KeptAll(p[..|p| - 1]);
      assert p == p[..|p| - 1] + [p[|p| - 1]];
    }
  }

  lemma FlatEntropy(ln: real -> real, p: seq<real>)
    requires IsLog(ln) && |p| >= 2 && AllEqual(p, 1.0 / |p| as real)
    ensures Entropy(p, ln) == ln(|p| as real)
  {
    var n, L, c := |p| as real, ln(|p| as real), 1.0 / |p| as real;
    EntropyOfFlat(ln, p, c);
    LogInverse(ln, n);
    assert n * (c * L) == (n * c) * L;
    assert n * c == 1.0;
    assert -(c * ln(c)) == c * L;
  }

  lemma FlatScoresOne(sv: seq<real>, ln: real -> real)
    requires IsLog(ln) && |sv| >= 2 && SumReal(Squares(sv)) != 0.0
    requires AllEqual(Born(sv), 1.0 / |sv| as real) && 1.0 / |sv| as real > P_EPS
    ensures SpectrumScore(sv, |sv|, ln) == 1.0
  {
    hide Kept, Entropy, SumReal, Squares, IsLog;
    var p := Born(sv);
    assert |p| == |sv|;
    KeptAll(p);
    FlatEntropy(ln, p);
    LogOfCount(ln, |sv|);
    OwnQuotient(ln(|sv| as real));
  }

  lemma OwnQuotient(x: real)
    requires x != 0.0
    ensures x / x == 1.0
  {
  }

  /** Exactly the flat spectra score one, and only while `1/n` is above the cut-off. */
  lemma ScoreOneIff(sv: seq<real>, ln: real -> real)
    requires IsLog(ln) && |sv| >= 2 && SumReal(Squares(sv)) != 0.0
    ensures SpectrumScore(sv, |sv|, ln) == 1.0
       <==> AllEqual(Born(sv), 1.0 / |sv| as real) && 1.0 / |sv| as real > P_EPS
  {
    if SpectrumScore(sv, |sv|, ln) == 1.0 {
      var kept := Kept(Born(sv));
      ScoreBounds(sv, ln);
      RatioInUnit(Entropy(kept, ln), ln(|sv| as real));
      KeptMembers(Born(sv));
      assert kept[0] in kept;
    } else if AllEqual(Born(sv), 1.0 / |sv| as real) && 1.0 / |sv| as real > P_EPS {
      FlatScoresOne(sv, ln);
    }
  }

  ghost predicate AllBelowCut(p: seq<real>) {
    forall k :: 0 <= k < |p| ==> p[k] <= P_EPS
  }

  lemma ZeroEntropyKeepsOnes(p: seq<real>)
    requires AllEqual(Kept(p), 1.0)
    ensures 1.0 in p || AllBelowCut(p)
  {
    var kept := Kept(p);
    KeptMembers(p);
    if kept != [] {
      assert kept[0] in kept;
    } else {
      forall k | 0 <= k < |p| ensures p[k] <= P_EPS {
        assert p[k] in p;
      }
    }
  }

  lemma {:induction false} NothingKept(p: seq<real>, ln: real -> real)
    requires AllBelowCut(p)
    ensures Kept(p) == [] && Entropy(Kept(p), ln) == 0.0
  {
    if p != [] {
      NothingKept(p[..|p| - 1], ln);
    }
  }

  lemma EntropyZeroIff(sv: seq<real>, ln: real -> real)
    requires IsLog(ln) && SumReal(Squares(sv)) != 0.0
    requires Entropy(Kept(Born(sv)), ln) == 0.0 ==> AllEqual(Kept(Born(sv)), 1.0)
    ensures Entropy(Kept(Born(sv)), ln) == 0.0 <==> 1.0 in Born(sv) || AllBelowCut(Born(sv))
  {
    if Entropy(Kept(Born(sv)), ln) == 0.0 {
      ZeroEntropyKeepsOnes(Born(sv));
    } else if 1.0 in Born(sv) {
      OneModeEntropy(sv, ln);
    } else if AllBelowCut(Born(sv)) {
      NothingKept(Born(sv), ln);
    }
  }

  /** Exactly the one-mode spectra score zero, besides those with every mode below the cut-off. */
  lemma ScoreZeroIff(sv: seq<real>, ln: real -> real)
    requires IsLog(ln) && |sv| >= 2 && SumReal(Squares(sv)) != 0.0
    ensures SpectrumScore(sv, |sv|, ln) == 0.0 <==> 1.0 in Born(sv) || AllBelowCut(Born(sv))
  {
    ScoreBounds(sv, ln);
    EntropyZeroIff(sv, ln);
    RatioInUnit(Entropy(Kept(Born(sv)), ln), ln(|sv| as real));
  }

  lemma {:induction false} OthersVanish(p: seq<real>, i: nat, k: nat)
    requires i < |p| && k < |p| && i != k && p[i] == 1.0 && SumReal(p) == 1.0
    requires forall j :: 0 <= j < |p| ==> p[j] >= 0.0
    ensures p[k] == 0.0
  {
    TwoDominate(p, i, k);
  }

  lemma {:induction false} TwoDominate(p: seq<real>, i: nat, k: nat)
    requires i < |p| && k < |p| && i != k && forall j :: 0 <= j < |p| ==> p[j] >= 0.0
    ensures p[i] + p[k] <= SumReal(p)
  {
    var front := p[..|p| - 1];
    if i == |p| - 1 {
      SumDominates(front, k);
    } else if k == |p| - 1 {
      SumDominates(front, i);
    } else {
      TwoDominate(front, i, k);
    }
  }

  lemma {:induction false} EntropyOfOnes(ln: real -> real, p: seq<real>)
    requires IsLog(ln) && AllEqual(p, 1.0)
    ensures Entropy(p, ln) == 0.0
  {
    EntropyOfFlat(ln, p, 1.0);
    LogOne(ln);
  }

  lemma OneModeEntropy(sv: seq<real>, ln: real -> real)
    requires IsLog(ln) && SumReal(Squares(sv)) != 0.0 && 1.0 in Born(sv)
    ensures Entropy(Kept(Born(sv)), ln) == 0.0
  {
    var p := Born(sv);
    var kept := Kept(p);
    var i :| 0 <= i < |p| && p[i] == 1.0;
    BornIsDistribution(sv);
    KeptMembers(p);
    forall k | 0 <= k < |kept| ensures kept[k] == 1.0 {
      assert kept[k] in kept;
      var j :| 0 <= j < |p| && p[j] == kept[k];
      if j != i {
        OthersVanish(p, i, j);
      }
    }
    EntropyOfOnes(ln, kept);
  }

  /** Scaling the whole spectrum by any non-zero factor changes nothing. */
  lemma ScoreIsScaleFree(sv: seq<real>, c: real, scaled: seq<real>, ln: real -> real)
    requires c != 0.0 && |scaled| == |sv| && forall i :: 0 <= i < |sv| ==> scaled[i] == c * sv[i]
    ensures SpectrumScore(scaled, |sv|, ln) == SpectrumScore(sv, |sv|, ln)
  {
    hide Kept, Entropy, SumReal, Squares, Born;
    var s, t, k := Squares(sv), Squares(scaled), c * c;
    SquarePositive(c, k);
    SquaresScaled(sv, c, scaled, k);
    SumScaled(s, t, k);
    if SumReal(s) != 0.0 {
      SquaresNonNegative(sv);
      ProductZero(k, SumReal(s));
      BornScaled(sv, scaled, k);
    }
  }

  lemma SquaresScaled(sv: seq<real>, c: real, scaled: seq<real>, k: real)
    requires k == c * c && |scaled| == |sv| && forall i :: 0 <= i < |sv| ==> scaled[i] == c * sv[i]
    ensures |Squares(scaled)| == |Squares(sv)| == |sv|
    ensures forall i :: 0 <= i < |sv| ==> Squares(scaled)[i] == k * Squares(sv)[i]
  {
    forall i | 0 <= i < |sv| ensures scaled[i] * scaled[i] == k * (sv[i] * sv[i]) {
      assert (c * sv[i]) * (c * sv[i]) == (c * c) * (sv[i] * sv[i]);
    }
  }

  lemma BornScaled(sv: seq<real>, scaled: seq<real>, k: real)
    requires |scaled| == |sv| && k > 0.0 && SumReal(Squares(sv)) != 0.0
    requires SumReal(Squares(scaled)) == k * SumReal(Squares(sv)) && SumReal(Squares(scaled)) != 0.0
    requires forall i :: 0 <= i < |sv| ==> Squares(scaled)[i] == k * Squares(sv)[i]
    ensures Born(scaled) == Born(sv)
  {
    hide SumReal;
    forall i | 0 <= i < |sv| ensures Born(scaled)[i] == Born(sv)[i] {
      CancelFactor(Squares(sv)[i], SumReal(Squares(sv)), k);
    }
  }

  lemma SquarePositive(c: real, k: real)
    requires c != 0.0 && k == c * c
    ensures k > 0.0
  {
    SameSignProduct(c, c, k);
  }

  lemma CancelFactor(x: real, y: real, k: real)
    requires y != 0.0 && k > 0.0
    ensures k * y != 0.0 && (k * x) / (k * y) == x / y
  {
    assert (x / y) * (k * y) == k * x;
  }

  /** Whatever is scored, the answer is an error or lies in the unit interval; the singular value
      routine need only return one value per node. */
  lemma FragilityInUnit(a: Tensor, features: Tensor, weights: Option<seq<real>>, sqrt: real -> real,
                        svdvals: Tensor -> seq<real>, ln: real -> real)
    requires IsLog(ln) && forall t :: |svdvals(t)| == t.rows
    ensures var r := FragilityRaw(a, features, weights, sqrt, svdvals, ln);
            r.Ok? ==> 0.0 <= r.value <= 1.0
  {
    if a.rows >= 2 && a.rows == a.cols == features.rows {
      var w := WeightsOf(features, weights);
      if |w| == features.cols {
        var W := Coupling(a, Masses(features, w), sqrt);
        assert |svdvals(W)| == W.rows;
        ScoreInUnit(svdvals(W), ln);
      }
    }
  }
}
