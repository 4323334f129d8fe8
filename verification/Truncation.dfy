/** Rank selection of engine/mps/truncation.py, on the singular values the decomposition returned. */
module Truncation {
  import opened Prelude
  import opened Fragility

  datatype RankError = EnergyOutOfRange | RankBelowOne

  /** `torch.cumsum` of the squared singular values, relative to their total. */
  function Cumulative(sv: seq<real>): seq<real>
    requires SumReal(Squares(sv)) != 0.0
  {
    seq(|sv|, i requires 0 <= i < |sv| => Energy(sv, i + 1) / SumReal(Squares(sv)))
  }

  /** The squared energy of the first `r` modes. */
  function Energy(sv: seq<real>, r: nat): real
    requires r <= |sv|
  {
    SumReal(Squares(sv)[..r])
  }

  /** `torch.searchsorted` to the left: bisection between `lo` and `hi`. */
  function Bisect(s: seq<real>, x: real, lo: nat, hi: nat): (r: nat)
    requires lo <= hi <= |s|
    ensures lo <= r <= hi
    decreases hi - lo
  {
    if lo == hi then lo
    else
      var mid := (lo + hi) / 2;
      if s[mid] < x then Bisect(s, x, mid + 1, hi) else Bisect(s, x, lo, mid)
  }

  function AutoRank(sv: seq<real>, energy: real): Result<nat, RankError> {
    if !(0.0 < energy <= 1.0) then Err(EnergyOutOfRange)
    else if SumReal(Squares(sv)) == 0.0 then Ok(1)
    else
      var cumulative := Cumulative(sv);
      var index := Bisect(cumulative, energy, 0, |cumulative|);
      Ok(if index + 1 <= |sv| then index + 1 else |sv|)
  }

  predicate Ascending(s: seq<real>) {
    forall i, j :: 0 <= i <= j < |s| ==> s[i] <= s[j]
  }

  /** On ascending input bisection finds the first position at or above `x`. */
  lemma {:induction false} BisectIsFirst(s: seq<real>, x: real, lo: nat, hi: nat)
    requires lo <= hi <= |s| && Ascending(s)
    requires forall i :: 0 <= i < lo ==> s[i] < x
    requires forall i :: hi <= i < |s| ==> s[i] >= x
    ensures forall i :: 0 <= i < Bisect(s, x, lo, hi) ==> s[i] < x
    ensures forall i :: Bisect(s, x, lo, hi) <= i < |s| ==> s[i] >= x
    decreases hi - lo
  {
    if lo < hi {
      var mid := (lo + hi) / 2;
      if s[mid] < x {
        BisectIsFirst(s, x, mid + 1, hi);
      } else {
        BisectIsFirst(s, x, lo, mid);
      }
    }
  }

  lemma {:induction false} EnergyGrows(sv: seq<real>, r: nat, t: nat)
    requires r <= t <= |sv|
    ensures 0.0 <= Energy(sv, r) <= Energy(sv, t)
    decreases t - r
  {
    var s := Squares(sv);
    forall k | 0 <= k < r ensures s[..r][k] >= 0.0 {
      assert s[k] == sv[k] * sv[k];
    }
    SumNonNegative(s[..r]);
    if r < t {
      EnergyGrows(sv, r, t - 1);
      assert s[..t][..t - 1] == s[..t - 1];
      assert s[t - 1] == sv[t - 1] * sv[t - 1];
    }
  }

  lemma QuotientAtLeast(x: real, y: real, z: real)
    requires y > 0.0
    ensures x / y >= z <==> x >= z * y
  {
    assert x == (x / y) * y;
  }

  lemma CumulativeAscends(sv: seq<real>)
    requires SumReal(Squares(sv)) != 0.0
    ensures Ascending(Cumulative(sv))
  {
    var total := SumReal(Squares(sv));
    SquaresNonNegative(sv);
    forall i, j | 0 <= i <= j < |sv| ensures Cumulative(sv)[i] <= Cumulative(sv)[j] {
      EnergyGrows(sv, i + 1, j + 1);
      QuotientAtLeast(Energy(sv, j + 1), total, Energy(sv, i + 1) / total);
    }
  }

  lemma CumulativeReaches(sv: seq<real>, s: seq<real>, energy: real, target: real)
    requires SumReal(Squares(sv)) != 0.0 && s == Cumulative(sv) && target == energy * SumReal(Squares(sv))
    ensures |s| == |sv|
    ensures forall i {:trigger s[i]} :: 0 <= i < |s| ==> (s[i] >= energy <==> Energy(sv, i + 1) >= target)
  {
    var total := SumReal(Squares(sv));
    SquaresNonNegative(sv);
    forall i {:trigger s[i]} | 0 <= i < |s|
      ensures s[i] >= energy <==> Energy(sv, i + 1) >= target
    {
      QuotientAtLeast(Energy(sv, i + 1), total, energy);
    }
  }

  /** `r` is the smallest rank that retains `target`. */
  ghost predicate IsMinimalRank(sv: seq<real>, r: nat, target: real) {
    && 1 <= r <= |sv| && Energy(sv, r) >= target
    && forall t: nat :: t < r ==> Energy(sv, t) < target
  }

  /** Bisection on any ascending sequence that compares with `x` as the energies do with `target`. */
  lemma FirstAtEnergy(sv: seq<real>, s: seq<real>, x: real, target: real, index: nat)
    requires |s| == |sv| && Ascending(s) && index == Bisect(s, x, 0, |sv|)
    requires forall i {:trigger s[i]} :: 0 <= i < |s| ==> (s[i] >= x <==> Energy(sv, i + 1) >= target)
    ensures index < |sv| ==> Energy(sv, index + 1) >= target
    ensures forall t: nat :: 1 <= t <= index ==> Energy(sv, t) < target
  {
    hide Energy, Bisect;
    BisectIsFirst(s, x, 0, |sv|);
    if index < |sv| {
      assert s[index] >= x;
    }
    forall t: nat | 1 <= t <= index ensures Energy(sv, t) < target {
      assert s[t - 1] < x;
    }
  }

  lemma FirstIsMinimal(sv: seq<real>, index: nat, target: real)
    requires index <= |sv| && 0.0 < target <= SumReal(Squares(sv))
    requires index < |sv| ==> Energy(sv, index + 1) >= target
    requires forall t: nat :: 1 <= t <= index ==> Energy(sv, t) < target
    ensures index < |sv| && IsMinimalRank(sv, index + 1, target)
  {
    FullEnergy(sv);
  }

  lemma FullEnergy(sv: seq<real>)
    ensures Energy(sv, |sv|) == SumReal(Squares(sv)) && Energy(sv, 0) == 0.0
  {
    assert Squares(sv)[..|sv|] == Squares(sv) && Squares(sv)[..0] == [];
  }

  lemma TargetInRange(energy: real, total: real, target: real)
    requires 0.0 < energy <= 1.0 && total > 0.0 && target == energy * total
    ensures 0.0 < target <= total
  {
    assert total - target == (1.0 - energy) * total;
    assert (1.0 - energy) * total >= 0.0;
  }

  lemma FirstReaching(sv: seq<real>, energy: real, target: real, index: nat)
    requires SumReal(Squares(sv)) != 0.0 && target == energy * SumReal(Squares(sv))
    requires index == Bisect(Cumulative(sv), energy, 0, |sv|)
    ensures index < |sv| ==> Energy(sv, index + 1) >= target
    ensures forall t: nat :: 1 <= t <= index ==> Energy(sv, t) < target
  {
    CumulativeAscends(sv);
    CumulativeReaches(sv, Cumulative(sv), energy, target);
    FirstAtEnergy(sv, Cumulative(sv), energy, target, index);
  }

  /** The chosen rank retains the asked energy, no smaller rank does, and the final cap never acts. */
  lemma AutoRankIsMinimal(sv: seq<real>, energy: real, target: real)
    requires 0.0 < energy <= 1.0 && SumReal(Squares(sv)) != 0.0 && target == energy * SumReal(Squares(sv))
    ensures AutoRank(sv, energy).Ok? && IsMinimalRank(sv, AutoRank(sv, energy).value, target)
  {
    var index := Bisect(Cumulative(sv), energy, 0, |sv|);
    SquaresNonNegative(sv);
    TargetInRange(energy, SumReal(Squares(sv)), target);
    FirstReaching(sv, energy, target, index);
    FirstIsMinimal(sv, index, target);
  }

  lemma MinimalRanksOrdered(sv: seq<real>, r: nat, low: real, t: nat, high: real)
    requires IsMinimalRank(sv, r, low) && IsMinimalRank(sv, t, high) && low <= high
    ensures r <= t
  {
    assert Energy(sv, t) >= low;
  }

  lemma ScaledOrder(low: real, high: real, total: real, a: real, b: real)
    requires low <= high && total >= 0.0 && a == low * total && b == high * total
    ensures a <= b
  {
    assert b - a == (high - low) * total;
  }

  lemma RankOfZero(sv: seq<real>, energy: real)
    requires 0.0 < energy <= 1.0 && SumReal(Squares(sv)) == 0.0
    ensures AutoRank(sv, energy) == Ok(1)
  {
  }

  lemma RanksOrdered(sv: seq<real>, low: real, high: real, a: real, b: real)
    requires 0.0 < low <= high <= 1.0 && SumReal(Squares(sv)) != 0.0
    requires a == low * SumReal(Squares(sv)) && b == high * SumReal(Squares(sv)) && a <= b
    ensures AutoRank(sv, low).Ok? && AutoRank(sv, high).Ok?
    ensures AutoRank(sv, low).value <= AutoRank(sv, high).value
  {
    AutoRankIsMinimal(sv, low, a);
    AutoRankIsMinimal(sv, high, b);
    MinimalRanksOrdered(sv, AutoRank(sv, low).value, a, AutoRank(sv, high).value, b);
  }

  /** Asking for more energy never lowers the rank. */
  lemma AutoRankMonotone(sv: seq<real>, low: real, high: real)
    requires 0.0 < low <= high <= 1.0
    ensures AutoRank(sv, low).Ok? && AutoRank(sv, high).Ok?
    ensures AutoRank(sv, low).value <= AutoRank(sv, high).value
  {
    var total := SumReal(Squares(sv));
    if total == 0.0 {
      RankOfZero(sv, low);
      RankOfZero(sv, high);
    } else {
      SquaresNonNegative(sv);
      ScaledOrder(low, high, total, low * total, high * total);
      RanksOrdered(sv, low, high, low * total, high * total);
    }
  }

  // Rank capping of `truncated_svd`.

  function NumericalRank(s: seq<real>, tol: real): nat {
    if s == [] then 0 else NumericalRank(s[..|s| - 1], tol) + if s[|s| - 1] > tol then 1 else 0
  }

  /** How many leading triplets are kept. */
  function EffectiveRank(s: seq<real>, rank: int, tol: real): Result<int, RankError> {
    if rank < 1 then Err(RankBelowOne)
    else
      var effective := Min(rank, |s|);
      var numerical := NumericalRank(s, tol);
      Ok(if numerical < |s| then Min(effective, Max(1, numerical)) else effective)
  }

  predicate Descending(s: seq<real>) {
    forall i, j :: 0 <= i <= j < |s| ==> s[i] >= s[j]
  }

  /** On a descending spectrum the numerical rank is where the values sink to the tolerance. */
  lemma {:induction false} NumericalRankSplits(s: seq<real>, tol: real)
    requires Descending(s)
    ensures NumericalRank(s, tol) <= |s|
    ensures forall i :: 0 <= i < |s| ==> (s[i] > tol <==> i < NumericalRank(s, tol))
  {
    if s != [] {
      var front := s[..|s| - 1];
      NumericalRankSplits(front, tol);
      forall i | 0 <= i < |s| ensures s[i] > tol <==> i < NumericalRank(s, tol) {
        if i < |front| {
          assert front[i] == s[i];
        }
        if s[|s| - 1] > tol && |front| > 0 {
          assert front[|front| - 1] >= s[|s| - 1];
          assert front[|front| - 1] > tol;
        }
      }
    }
  }

  /** No null-space mode is kept unless nothing else exists, and no larger allowed rank would do. */
  lemma EffectiveRankIsBest(s: seq<real>, rank: int, tol: real)
    requires Descending(s) && s != [] && rank >= 1
    ensures var r := EffectiveRank(s, rank, tol);
            && r.Ok? && 1 <= r.value <= |s| && r.value <= rank
            && ((forall i :: 0 <= i < r.value ==> s[i] > tol) || (r.value == 1 && s[0] <= tol))
            && (r.value < rank && r.value < |s| ==> s[r.value] <= tol)
  {
    NumericalRankSplits(s, tol);
  }
}
