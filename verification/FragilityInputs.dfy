/** How adjacency, features and weights reach the fragility score of engine/mps/naive.py: what the matrix
    handed to the singular value routine is, without its formula, and what the score does not depend on. */
module FragilityInputs {
  import opened Prelude
  import opened Fragility

  // Node masses.

  lemma {:induction false} MassLinear(features: Tensor, u: seq<real>, v: seq<real>, w: seq<real>, c: real, node: nat,
                                      k: nat)
    requires |u| == |v| == |w| && k <= |w| && forall l :: 0 <= l < |w| ==> w[l] == c * u[l] + v[l]
    ensures MassUpTo(features, w, node, k) == c * MassUpTo(features, u, node, k) + MassUpTo(features, v, node, k)
  {
    if k > 0 {
      MassLinear(features, u, v, w, c, node, k - 1);
      Distribute(features.cell(node, k - 1), c, u[k - 1], v[k - 1], MassUpTo(features, u, node, k - 1));
    }
  }

  lemma Distribute(x: real, c: real, u: real, v: real, below: real)
    ensures x * (c * u + v) == c * (x * u) + x * v
    ensures c * (below + x * u) == c * below + c * (x * u)
  {
  }

  lemma {:induction false} MassOfUnit(features: Tensor, w: seq<real>, node: nat, at: nat, k: nat)
    requires at < |w| && k <= |w| && forall l :: 0 <= l < |w| ==> w[l] == if l == at then 1.0 else 0.0
    ensures MassUpTo(features, w, node, k) == if k <= at then 0.0 else features.cell(node, at)
  {
    if k > 0 {
      MassOfUnit(features, w, node, at, k - 1);
    }
  }

  /** A node's mass is linear in the weights, and the weight of one column alone gives that column: mass is
      the product of the feature matrix with the weights. */
  lemma MassLaws(features: Tensor, u: seq<real>, v: seq<real>, w: seq<real>, c: real, node: nat)
    requires |u| == |v| == |w| == features.cols
    ensures (forall l :: 0 <= l < |w| ==> w[l] == c * u[l] + v[l]) ==>
              Mass(features, w, node) == c * Mass(features, u, node) + Mass(features, v, node)
    ensures forall at :: 0 <= at < |w| && (forall l :: 0 <= l < |w| ==> w[l] == if l == at then 1.0 else 0.0) ==>
              Mass(features, w, node) == features.cell(node, at)
  {
    if forall l :: 0 <= l < |w| ==> w[l] == c * u[l] + v[l] {
      MassLinear(features, u, v, w, c, node, |w|);
    }
    forall at | 0 <= at < |w| && (forall l :: 0 <= l < |w| ==> w[l] == if l == at then 1.0 else 0.0)
      ensures Mass(features, w, node) == features.cell(node, at)
    {
      MassOfUnit(features, w, node, at, |w|);
    }
  }

  lemma {:induction false} MassFollows(features: Tensor, scaled: Tensor, w: seq<real>, c: real, node: nat, k: nat)
    requires k <= |w| && forall l: nat :: l < |w| ==> scaled.cell(node, l) == c * features.cell(node, l)
    ensures MassUpTo(scaled, w, node, k) == c * MassUpTo(features, w, node, k)
  {
    if k > 0 {
      MassFollows(features, scaled, w, c, node, k - 1);
      var l: nat, x := k - 1, features.cell(node, k - 1);
      assert scaled.cell(node, l) == c * x;
      Distribute(x, c, w[k - 1], 0.0, MassUpTo(features, w, node, k - 1));
      assert (c * x) * w[k - 1] == c * (x * w[k - 1]);
    }
  }

  // The matrix handed on.

  /** The cell that joins nodes of masses `p` and `q` along an edge `x`: its square and its sign. */
  predicate Joins(cell: real, p: real, q: real, x: real) {
    && cell * cell == p * q * (x * x)
    && (cell > 0.0 <==> p > 0.0 && q > 0.0 && x > 0.0)
    && (cell < 0.0 <==> p > 0.0 && q > 0.0 && x < 0.0)
  }

  /** The coupling of a graph under node masses, whatever formula gave it. */
  ghost predicate IsCoupling(w: Tensor, a: Tensor, m: seq<real>) {
    && w.rows == a.rows && w.cols == a.cols
    && forall i: nat, j: nat :: i < |m| && j < |m| ==> Joins(w.cell(i, j), m[i], m[j], a.cell(i, j))
  }

  lemma SquareOfThree(p: real, x: real, q: real, w: real)
    requires w == p * x * q
    ensures w * w == (p * p) * (q * q) * (x * x)
  {
    assert (p * x * q) * (p * x * q) == (p * p) * (q * q) * (x * x);
  }

  lemma SignOfThree(p: real, x: real, q: real, w: real)
    requires w == p * x * q && p >= 0.0 && q >= 0.0
    ensures w > 0.0 <==> p > 0.0 && q > 0.0 && x > 0.0
    ensures w < 0.0 <==> p > 0.0 && q > 0.0 && x < 0.0
  {
    var pq := p * q;
    assert w == pq * x;
    if p > 0.0 && q > 0.0 {
      SameSignProduct(p, q, pq);
      if x > 0.0 {
        SameSignProduct(pq, x, w);
      } else if x < 0.0 {
        SameSignProduct(pq, -x, -w);
      }
    }
  }

  lemma RootSign(sqrt: real -> real, x: real)
    requires IsSqrt(sqrt) && x >= 0.0
    ensures sqrt(x) >= 0.0 && sqrt(x) * sqrt(x) == x && (sqrt(x) > 0.0 <==> x > 0.0)
  {
    assert RootOf(sqrt, x);
    if sqrt(x) > 0.0 {
      SameSignProduct(sqrt(x), sqrt(x), x);
    } else {
      assert sqrt(x) == 0.0;
    }
  }

  lemma CouplingIsCoupling(a: Tensor, m: seq<real>, sqrt: real -> real)
    requires IsSqrt(sqrt) && forall i :: 0 <= i < |m| ==> m[i] >= 0.0
    ensures IsCoupling(Coupling(a, m, sqrt), a, m)
  {
    hide IsSqrt;
    var w := Coupling(a, m, sqrt);
    forall i: nat, j: nat | i < |m| && j < |m| ensures Joins(w.cell(i, j), m[i], m[j], a.cell(i, j)) {
      RootSign(sqrt, m[i]);
      RootSign(sqrt, m[j]);
      SquareOfThree(sqrt(m[i]), a.cell(i, j), sqrt(m[j]), w.cell(i, j));
      SignOfThree(sqrt(m[i]), a.cell(i, j), sqrt(m[j]), w.cell(i, j));
    }
  }

  lemma SameSquareSameSign(x: real, y: real)
    requires x * x == y * y && (x > 0.0 <==> y > 0.0) && (x < 0.0 <==> y < 0.0)
    ensures x == y
  {
    var d, s := x - y, x + y;
    assert d * s == 0.0;
    if d != 0.0 && s != 0.0 {
      NonZeroProduct(d, s);
      assert false;
    }
  }

  lemma NonZeroProduct(d: real, s: real)
    requires d != 0.0 && s != 0.0
    ensures d * s != 0.0
  {
    var k := d * s;
    if (d > 0.0) == (s > 0.0) {
      SameSignProduct(d, s, k);
    } else {
      SameSignProduct(d, -s, -k);
    }
  }

  /** There is only one such matrix. */
  lemma CouplingIsUnique(w: Tensor, v: Tensor, a: Tensor, m: seq<real>, i: nat, j: nat)
    requires IsCoupling(w, a, m) && IsCoupling(v, a, m) && i < |m| && j < |m|
    ensures w.cell(i, j) == v.cell(i, j)
  {
    assert Joins(w.cell(i, j), m[i], m[j], a.cell(i, j)) && Joins(v.cell(i, j), m[i], m[j], a.cell(i, j));
    SameSquareSameSign(w.cell(i, j), v.cell(i, j));
  }

  lemma NoMassNoCell(cell: real, q: real, x: real)
    requires Joins(cell, 0.0, q, x) || Joins(cell, q, 0.0, x)
    ensures cell == 0.0
  {
  }

  lemma UnitMassCell(cell: real, x: real)
    requires Joins(cell, 1.0, 1.0, x)
    ensures cell == x
  {
    SameSquareSameSign(cell, x);
  }

  lemma SameCell(cell: real, other: real, p: real, q: real, x: real)
    requires Joins(cell, p, q, x) && Joins(other, q, p, x)
    ensures cell == other
  {
    assert q * p == p * q;
    SameSquareSameSign(cell, other);
  }

  /** A node without mass has no coupling; unit masses leave the graph as it is; and the coupling of an
      undirected graph is symmetric. */
  lemma CouplingLaws(a: Tensor, m: seq<real>, w: Tensor, i: nat, j: nat)
    requires IsCoupling(w, a, m) && i < |m| && j < |m|
    ensures m[i] == 0.0 ==> w.cell(i, j) == 0.0 == w.cell(j, i)
    ensures m[i] == 1.0 == m[j] ==> w.cell(i, j) == a.cell(i, j)
    ensures a.cell(i, j) == a.cell(j, i) ==> w.cell(i, j) == w.cell(j, i)
  {
    hide Joins;
    assert Joins(w.cell(i, j), m[i], m[j], a.cell(i, j)) && Joins(w.cell(j, i), m[j], m[i], a.cell(j, i));
    if m[i] == 0.0 {
      NoMassNoCell(w.cell(i, j), m[j], a.cell(i, j));
      NoMassNoCell(w.cell(j, i), m[j], a.cell(j, i));
    }
    if m[i] == 1.0 == m[j] {
      UnitMassCell(w.cell(i, j), a.cell(i, j));
    }
    if a.cell(i, j) == a.cell(j, i) {
      SameCell(w.cell(i, j), w.cell(j, i), m[i], m[j], a.cell(i, j));
    }
  }

  // The singular value routine.

  function SumRow(t: Tensor, i: nat, n: nat): real {
    if n == 0 then 0.0 else SumRow(t, i, n - 1) + t.cell(i, n - 1) * t.cell(i, n - 1)
  }

  /** The sum of the squared cells of the first `k` rows. */
  function SumSquares(t: Tensor, k: nat): real {
    if k == 0 then 0.0 else SumSquares(t, k - 1) + SumRow(t, k - 1, t.cols)
  }

  ghost predicate Proportional(t: Tensor, u: Tensor, c: real) {
    && u.rows == t.rows && u.cols == t.cols
    && forall i: nat, j: nat :: i < t.rows && j < t.cols ==> u.cell(i, j) == c * t.cell(i, j)
  }

  /** What is used of it: one value per row, the sum of squares of the cells, and homogeneity. */
  ghost predicate IsSvd(svdvals: Tensor -> seq<real>) {
    && (forall t :: SvdOf(svdvals, t))
    && (forall t, u, c :: SvdFollows(svdvals, t, u, c))
  }

  ghost predicate SvdOf(svdvals: Tensor -> seq<real>, t: Tensor) {
    |svdvals(t)| == t.rows && SumReal(Squares(svdvals(t))) == SumSquares(t, t.rows)
  }

  ghost predicate SvdFollows(svdvals: Tensor -> seq<real>, t: Tensor, u: Tensor, c: real) {
    c > 0.0 && Proportional(t, u, c) ==>
      |svdvals(u)| == |svdvals(t)| && forall k :: 0 <= k < |svdvals(t)| ==> svdvals(u)[k] == c * svdvals(t)[k]
  }

  lemma ScoreFollows(t: Tensor, u: Tensor, c: real, svdvals: Tensor -> seq<real>, ln: real -> real)
    requires IsSvd(svdvals) && c > 0.0 && Proportional(t, u, c)
    ensures SpectrumScore(svdvals(u), t.rows, ln) == SpectrumScore(svdvals(t), t.rows, ln)
  {
    hide SpectrumScore, Proportional, Squares, SumSquares;
    assert SvdFollows(svdvals, t, u, c) && SvdOf(svdvals, t);
    ScoreIsScaleFree(svdvals(t), c, svdvals(u), ln);
  }

  // The whole score.

  /** The shapes agree and the graph has at least two nodes. */
  predicate Scorable(a: Tensor, features: Tensor, weights: Option<seq<real>>) {
    a.rows == a.cols == features.rows && a.rows >= 2 && |WeightsOf(features, weights)| == features.cols
  }

  ghost predicate Heavy(m: seq<real>) {
    (forall i :: 0 <= i < |m| ==> m[i] >= 0.0) && SumReal(m) != 0.0
  }

  /** The score is that of the spectrum of any matrix that couples the graph under its node masses. */
  lemma ScoreOfCoupling(a: Tensor, features: Tensor, weights: Option<seq<real>>, sqrt: real -> real,
                        svdvals: Tensor -> seq<real>, ln: real -> real, w: Tensor)
    requires IsSqrt(sqrt) && IsSvd(svdvals) && Scorable(a, features, weights)
    requires Heavy(Masses(features, WeightsOf(features, weights)))
    requires IsCoupling(w, a, Masses(features, WeightsOf(features, weights)))
    ensures FragilityRaw(a, features, weights, sqrt, svdvals, ln) == Ok(SpectrumScore(svdvals(w), a.rows, ln))
  {
    hide SpectrumScore, Mass, IsSvd, IsSqrt, IsCoupling, Coupling;
    var m := Masses(features, WeightsOf(features, weights));
    var own := Coupling(a, m, sqrt);
    CouplingIsCoupling(a, m, sqrt);
    CouplingShape(a, m, sqrt);
    IsCouplingShape(w, a, m);
    forall i: nat, j: nat | i < a.rows && j < a.cols ensures own.cell(i, j) == 1.0 * w.cell(i, j) {
      CouplingIsUnique(own, w, a, m, i, j);
    }
    assert Proportional(w, own, 1.0);
    ScoreFollows(w, own, 1.0, svdvals, ln);
  }

  lemma CouplingShape(a: Tensor, m: seq<real>, sqrt: real -> real)
    ensures Coupling(a, m, sqrt).rows == a.rows && Coupling(a, m, sqrt).cols == a.cols
  {
  }

  lemma IsCouplingShape(w: Tensor, a: Tensor, m: seq<real>)
    requires IsCoupling(w, a, m)
    ensures w.rows == a.rows && w.cols == a.cols
  {
  }

  function EdgeMass(a: Tensor, m: seq<real>, i: nat, n: nat): real
    requires i < |m| && n <= |m|
  {
    if n == 0 then 0.0
    else EdgeMass(a, m, i, n - 1) + m[i] * m[n - 1] * (a.cell(i, n - 1) * a.cell(i, n - 1))
  }

  /** Every squared edge, weighed by the masses at both ends. */
  function TotalMass(a: Tensor, m: seq<real>, k: nat): real
    requires k <= |m|
  {
    if k == 0 then 0.0 else TotalMass(a, m, k - 1) + EdgeMass(a, m, k - 1, |m|)
  }

  lemma {:induction false} RowTotal(w: Tensor, a: Tensor, m: seq<real>, i: nat, n: nat)
    requires IsCoupling(w, a, m) && i < |m| && n <= |m|
    ensures SumRow(w, i, n) == EdgeMass(a, m, i, n)
  {
    if n > 0 {
      RowTotal(w, a, m, i, n - 1);
      var j: nat := n - 1;
      assert Joins(w.cell(i, j), m[i], m[j], a.cell(i, j));
    }
  }

  lemma {:induction false} AllTotal(w: Tensor, a: Tensor, m: seq<real>, k: nat)
    requires IsCoupling(w, a, m) && k <= |m| && w.cols == |m|
    ensures SumSquares(w, k) == TotalMass(a, m, k)
  {
    if k > 0 {
      AllTotal(w, a, m, k - 1);
      RowTotal(w, a, m, k - 1, |m|);
    }
  }

  /** The total by which the spectrum is normalized: over all pairs of nodes, both masses times the squared
      edge. It is what decides whether a graph counts as uncoupled. */
  lemma SpectrumTotal(w: Tensor, a: Tensor, m: seq<real>, svdvals: Tensor -> seq<real>)
    requires IsSvd(svdvals) && IsCoupling(w, a, m) && a.rows == a.cols == |m|
    ensures SumReal(Squares(svdvals(w))) == TotalMass(a, m, |m|)
  {
    hide Squares, SumReal, SumSquares, TotalMass;
    assert SvdOf(svdvals, w);
    AllTotal(w, a, m, |m|);
  }

  lemma {:induction false} SumFollows(m: seq<real>, n: seq<real>, c: real)
    requires |n| == |m| && forall i :: 0 <= i < |m| ==> n[i] == c * m[i]
    ensures SumReal(n) == c * SumReal(m)
  {
    if m != [] {
      SumFollows(m[..|m| - 1], n[..|n| - 1], c);
      assert c * (SumReal(m[..|m| - 1]) + m[|m| - 1]) == c * SumReal(m[..|m| - 1]) + c * m[|m| - 1];
    }
  }

  lemma ScaleJoins(cell: real, p: real, q: real, x: real, c: real, d: real)
    requires Joins(cell, p, q, x) && c > 0.0 && d > 0.0
    ensures Joins(c * d * cell, c * p, c * q, d * x)
  {
    var k := c * d;
    SameSignProduct(c, d, k);
    ScaleSquares(cell, p, q, x, c, d);
    ScaleSign(k, cell);
    ScaleSign(c, p);
    ScaleSign(c, q);
    ScaleSign(d, x);
  }

  lemma ScaleSign(k: real, x: real)
    requires k > 0.0
    ensures (k * x > 0.0 <==> x > 0.0) && (k * x < 0.0 <==> x < 0.0)
  {
    var y := k * x;
    if x > 0.0 {
      SameSignProduct(k, x, y);
    } else if x < 0.0 {
      SameSignProduct(k, -x, -y);
    }
  }

  lemma ScaleSquares(cell: real, p: real, q: real, x: real, c: real, d: real)
    requires cell * cell == p * q * (x * x)
    ensures (c * d * cell) * (c * d * cell) == (c * p) * (c * q) * ((d * x) * (d * x))
  {
    var k := c * d;
    assert (k * cell) * (k * cell) == (k * k) * (cell * cell);
    assert (c * p) * (c * q) == (c * c) * (p * q);
    assert (d * x) * (d * x) == (d * d) * (x * x);
    assert k * k == (c * c) * (d * d);
    assert ((c * c) * (p * q)) * ((d * d) * (x * x)) == ((c * c) * (d * d)) * ((p * q) * (x * x));
  }

  lemma MassesScale(features: Tensor, scaled: Tensor, w: seq<real>, c: real)
    requires Proportional(features, scaled, c) && |w| == features.cols && c > 0.0
    ensures |Masses(scaled, w)| == |Masses(features, w)|
    ensures forall i :: 0 <= i < features.rows ==> Masses(scaled, w)[i] == c * Masses(features, w)[i]
    ensures SumReal(Masses(scaled, w)) == c * SumReal(Masses(features, w))
  {
    forall i: nat | i < features.rows ensures Masses(scaled, w)[i] == c * Masses(features, w)[i] {
      MassFollows(features, scaled, w, c, i, |w|);
    }
    SumFollows(Masses(features, w), Masses(scaled, w), c);
  }

  lemma MassesSigns(m: seq<real>, n: seq<real>, c: real)
    requires c > 0.0 && |n| == |m| && forall i :: 0 <= i < |m| ==> n[i] == c * m[i]
    requires SumReal(n) == c * SumReal(m)
    ensures (exists i :: 0 <= i < |n| && n[i] < 0.0) <==> exists i :: 0 <= i < |m| && m[i] < 0.0
    ensures SumReal(n) == 0.0 <==> SumReal(m) == 0.0
  {
    forall i | 0 <= i < |m| ensures n[i] < 0.0 <==> m[i] < 0.0 {
      ScaleSign(c, m[i]);
    }
    ScaleSign(c, SumReal(m));
  }

  lemma CellScales(w: real, p: real, q: real, x: real, v: real, r: real, s: real, y: real, c: real, d: real)
    requires c > 0.0 && d > 0.0 && r == c * p && s == c * q && y == d * x
    requires Joins(w, p, q, x) && Joins(v, r, s, y)
    ensures v == (c * d) * w
  {
    ScaleJoins(w, p, q, x, c, d);
    SameSquareSameSign(v, c * d * w);
  }

  lemma CouplingCellScales(a: Tensor, b: Tensor, m: seq<real>, n: seq<real>, w: Tensor, v: Tensor, c: real, d: real,
                           i: nat, j: nat)
    requires IsCoupling(w, a, m) && IsCoupling(v, b, n) && c > 0.0 && d > 0.0
    requires i < |m| == |n| && j < |m| && n[i] == c * m[i] && n[j] == c * m[j] && b.cell(i, j) == d * a.cell(i, j)
    ensures v.cell(i, j) == (c * d) * w.cell(i, j)
  {
    hide Joins;
    CellScales(w.cell(i, j), m[i], m[j], a.cell(i, j), v.cell(i, j), n[i], n[j], b.cell(i, j), c, d);
  }

  lemma ScaledAreNonNegative(m: seq<real>, n: seq<real>, c: real)
    requires c > 0.0 && |m| == |n| && forall i :: 0 <= i < |m| ==> m[i] >= 0.0 && n[i] == c * m[i]
    ensures forall i :: 0 <= i < |n| ==> n[i] >= 0.0
  {
    forall i | 0 <= i < |n| ensures n[i] >= 0.0 {
      ScaleSign(c, m[i]);
    }
  }

  lemma CouplingsScale(a: Tensor, b: Tensor, m: seq<real>, n: seq<real>, c: real, d: real, sqrt: real -> real)
    requires IsSqrt(sqrt) && c > 0.0 && d > 0.0 && Proportional(a, b, d) && a.rows == a.cols == |m| == |n|
    requires forall i :: 0 <= i < |m| ==> m[i] >= 0.0 && n[i] == c * m[i]
    ensures Proportional(Coupling(a, m, sqrt), Coupling(b, n, sqrt), c * d)
  {
    hide IsSqrt, Coupling, IsCoupling;
    var w, v := Coupling(a, m, sqrt), Coupling(b, n, sqrt);
    ScaledAreNonNegative(m, n, c);
    CouplingIsCoupling(a, m, sqrt);
    CouplingIsCoupling(b, n, sqrt);
    CouplingShape(a, m, sqrt);
    CouplingShape(b, n, sqrt);
    forall i: nat, j: nat | i < |m| && j < |m| ensures v.cell(i, j) == (c * d) * w.cell(i, j) {
      CouplingCellScales(a, b, m, n, w, v, c, d, i, j);
    }
  }

  predicate SomeNegative(m: seq<real>) {
    exists i :: 0 <= i < |m| && m[i] < 0.0
  }

  /** The score's cases, once the shapes agree. */
  lemma RawCases(a: Tensor, features: Tensor, weights: Option<seq<real>>, sqrt: real -> real,
                 svdvals: Tensor -> seq<real>, ln: real -> real)
    requires Scorable(a, features, weights)
    ensures var m := Masses(features, WeightsOf(features, weights));
            FragilityRaw(a, features, weights, sqrt, svdvals, ln)
            == if SomeNegative(m) then Err(NegativeMass)
               else if SumReal(m) == 0.0 then Ok(0.0)
               else Ok(SpectrumScore(svdvals(Coupling(a, m, sqrt)), a.rows, ln))
  {
  }

  /** Measuring all features, or all edges, in another unit changes nothing, errors included. */
  lemma UnitsDoNotMatter(a: Tensor, b: Tensor, features: Tensor, scaled: Tensor, weights: Option<seq<real>>, c: real,
                         d: real, sqrt: real -> real, svdvals: Tensor -> seq<real>, ln: real -> real)
    requires IsSqrt(sqrt) && IsSvd(svdvals) && c > 0.0 && d > 0.0
    requires Proportional(features, scaled, c) && Proportional(a, b, d)
    ensures FragilityRaw(b, scaled, weights, sqrt, svdvals, ln) == FragilityRaw(a, features, weights, sqrt, svdvals, ln)
  {
    hide IsSqrt, IsSvd, SpectrumScore, Masses, Coupling, SumReal;
    if Scorable(a, features, weights) {
      RawCases(a, features, weights, sqrt, svdvals, ln);
      RawCases(b, scaled, weights, sqrt, svdvals, ln);
      var ws := WeightsOf(features, weights);
      MassesScale(features, scaled, ws, c);
      MassesCount(features, ws);
      var m, n := Masses(features, ws), Masses(scaled, ws);
      MassesSigns(m, n, c);
      if !SomeNegative(m) && SumReal(m) != 0.0 {
        CouplingsScale(a, b, m, n, c, d, sqrt);
        CouplingShape(a, m, sqrt);
        SameSignProduct(c, d, c * d);
        ScoreFollows(Coupling(a, m, sqrt), Coupling(b, n, sqrt), c * d, svdvals, ln);
      }
    }
  }

  lemma MassesCount(features: Tensor, w: seq<real>)
    requires |w| == features.cols
    ensures |Masses(features, w)| == features.rows
  {
  }

  /** No weights are unit weights. */
  lemma DefaultWeights(a: Tensor, features: Tensor, ones: seq<real>, sqrt: real -> real, svdvals: Tensor -> seq<real>,
                       ln: real -> real)
    requires |ones| == features.cols && forall l :: 0 <= l < |ones| ==> ones[l] == 1.0
    ensures FragilityRaw(a, features, None, sqrt, svdvals, ln)
         == FragilityRaw(a, features, Some(ones), sqrt, svdvals, ln)
  {
    assert WeightsOf(features, None) == ones;
  }

  /** Exactly when there is a score at all; below two nodes, and without mass, it is zero. */
  lemma ScoredIff(a: Tensor, features: Tensor, weights: Option<seq<real>>, sqrt: real -> real,
                  svdvals: Tensor -> seq<real>, ln: real -> real)
    ensures var r := FragilityRaw(a, features, weights, sqrt, svdvals, ln);
            && (r.Ok? <==> a.rows == a.cols == features.rows
                           && (a.rows >= 2 ==> Scorable(a, features, weights)
                                               && !SomeNegative(Masses(features, WeightsOf(features, weights)))))
            && (r.Ok? && a.rows < 2 ==> r == Ok(0.0))
            && (r.Ok? && Scorable(a, features, weights)
                && (forall i :: 0 <= i < a.rows ==> Mass(features, WeightsOf(features, weights), i) == 0.0)
                ==> r == Ok(0.0))
  {
    hide Mass, SpectrumScore, Coupling;
    if Scorable(a, features, weights) {
      var m := Masses(features, WeightsOf(features, weights));
      if forall i :: 0 <= i < a.rows ==> Mass(features, WeightsOf(features, weights), i) == 0.0 {
        SumOfZeros(m);
      }
    }
  }

  lemma {:induction false} SumOfZeros(m: seq<real>)
    requires forall i :: 0 <= i < |m| ==> m[i] == 0.0
    ensures SumReal(m) == 0.0
  {
    if m != [] {
      SumOfZeros(m[..|m| - 1]);
    }
  }

  /** A graph whose every edge has an end without mass, or none at all, scores zero. */
  lemma UncoupledScoresZero(a: Tensor, features: Tensor, weights: Option<seq<real>>, sqrt: real -> real,
                            svdvals: Tensor -> seq<real>, ln: real -> real)
    requires IsSqrt(sqrt) && IsSvd(svdvals) && Scorable(a, features, weights)
    requires Heavy(Masses(features, WeightsOf(features, weights)))
    requires TotalMass(a, Masses(features, WeightsOf(features, weights)), a.rows) == 0.0
    ensures FragilityRaw(a, features, weights, sqrt, svdvals, ln) == Ok(0.0)
  {
    hide Mass, IsSvd, IsSqrt, Coupling, TotalMass, Squares, IsCoupling, SumReal;
    var m := Masses(features, WeightsOf(features, weights));
    var w := Coupling(a, m, sqrt);
    CouplingIsCoupling(a, m, sqrt);
    SpectrumTotal(w, a, m, svdvals);
  }
}
