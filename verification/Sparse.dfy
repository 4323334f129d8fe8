/** The compressed sparse row matrix of engine/tensor/sparse.py, against the dense one. */
module Sparse {
  import opened Prelude
  import opened GraphBuilder
  import opened Adjacency

  datatype Triplet = Triplet(row: nat, col: nat, val: real)

  /** `crow[i]` to `crow[i + 1]` are the positions of row `i`. */
  datatype Csr = Csr(size: nat, crow: seq<nat>, cols: seq<nat>, vals: seq<real>)

  function EdgeTriplets(index: map<string, nat>, e: Edge): seq<Triplet>
    requires e.src in index && e.dst in index
  {
    var i, j := index[e.src], index[e.dst];
    if i == j then [Triplet(i, i, e.weight)] else [Triplet(i, j, e.weight), Triplet(j, i, e.weight)]
  }

  function Triplets(ids: seq<string>, edges: seq<Edge>): seq<Triplet>
    requires forall k :: 0 <= k < |edges| ==> Resolves(ids, edges[k])
  {
    if edges == [] then []
    else
      IndexInRange(ids);
      assert Resolves(ids, edges[|edges| - 1]);
      Triplets(ids, edges[..|edges| - 1]) + EdgeTriplets(IndexOf(ids), edges[|edges| - 1])
  }

  /** `coalesce`: entries in row-major order, those of one cell summed. */
  function Coalesce(ts: seq<Triplet>): seq<Triplet> {
    if ts == [] then [] else Insert(Coalesce(ts[..|ts| - 1]), ts[|ts| - 1])
  }

  predicate Before(a: Triplet, b: Triplet) {
    a.row < b.row || (a.row == b.row && a.col < b.col)
  }

  function Insert(cells: seq<Triplet>, t: Triplet): seq<Triplet> {
    if cells == [] then [t]
    else
      var last := cells[|cells| - 1];
      if Before(last, t) then cells + [t]
      else if last.row == t.row && last.col == t.col
      then cells[..|cells| - 1] + [last.(val := last.val + t.val)]
      else Insert(cells[..|cells| - 1], t) + [last]
  }

  function CountBelow(cells: seq<Triplet>, row: nat): nat {
    if cells == [] then 0 else CountBelow(cells[..|cells| - 1], row) + if cells[|cells| - 1].row < row then 1 else 0
  }

  function ToCsr(cells: seq<Triplet>, n: nat): Csr {
    Csr(n, seq(n + 1, i requires 0 <= i < n + 1 => CountBelow(cells, i)),
        seq(|cells|, k requires 0 <= k < |cells| => cells[k].col),
        seq(|cells|, k requires 0 <= k < |cells| => cells[k].val))
  }

  method SparseAdjacency(ids: seq<string>, edges: seq<Edge>) returns (r: Result<Csr, TensorError>)
    ensures r.Ok? <==> forall k :: 0 <= k < |edges| ==> Resolves(ids, edges[k])
    ensures r.Ok? ==> r.value == ToCsr(Coalesce(Triplets(ids, edges)), |ids|)
  {
    var index := BuildIndex(ids);
    IndexInRange(ids);
    var ts: seq<Triplet> := [];
    for k := 0 to |edges|
      invariant forall m :: 0 <= m < k ==> Resolves(ids, edges[m])
      invariant ts == Triplets(ids, edges[..k])
    {
      var e := edges[k];
      assert edges[..k + 1][..k] == edges[..k];
      if e.src !in index || e.dst !in index {
        return Err(UnknownNode);
      }
      var i, j := index[e.src], index[e.dst];
      if i == j {
        ts := ts + [Triplet(i, i, e.weight)];
      } else {
        ts := ts + [Triplet(i, j, e.weight)];
        ts := ts + [Triplet(j, i, e.weight)];
      }
    }
    assert edges[..|edges|] == edges;
    r := Ok(ToCsr(Coalesce(ts), |ids|));
  }

  // Triplets denote the dense matrix.

  function AtCell(t: Triplet, i: nat, j: nat): real {
    if t.row == i && t.col == j then t.val else 0.0
  }

  function CellSum(ts: seq<Triplet>, i: nat, j: nat): real {
    if ts == [] then 0.0 else CellSum(ts[..|ts| - 1], i, j) + AtCell(ts[|ts| - 1], i, j)
  }

  lemma CellSumPush(ts: seq<Triplet>, t: Triplet, i: nat, j: nat)
    ensures CellSum(ts + [t], i, j) == CellSum(ts, i, j) + AtCell(t, i, j)
  {
    assert (ts + [t])[..|ts|] == ts;
  }

  lemma {:induction false} TripletsAreDense(ids: seq<string>, edges: seq<Edge>, i: nat, j: nat)
    requires forall k :: 0 <= k < |edges| ==> Resolves(ids, edges[k])
    ensures CellSum(Triplets(ids, edges), i, j) == Dense(ids, edges, i, j)
  {
    if edges != [] {
      var front, e := edges[..|edges| - 1], edges[|edges| - 1];
      IndexInRange(ids);
      assert Resolves(ids, e);
      TripletsAreDense(ids, front, i, j);
      var a, b, ts := IndexOf(ids)[e.src], IndexOf(ids)[e.dst], Triplets(ids, front);
      if a == b {
        CellSumPush(ts, Triplet(a, a, e.weight), i, j);
      } else {
        CellSumPush(ts, Triplet(a, b, e.weight), i, j);
        CellSumPush(ts + [Triplet(a, b, e.weight)], Triplet(b, a, e.weight), i, j);
        assert Triplets(ids, edges) == ts + [Triplet(a, b, e.weight)] + [Triplet(b, a, e.weight)];
      }
    }
  }

  /** Row by row, and in each row by rising columns. */
  ghost predicate Sorted(cells: seq<Triplet>) {
    forall k, m :: 0 <= k < m < |cells| ==>
      cells[k].row < cells[m].row || (cells[k].row == cells[m].row && cells[k].col < cells[m].col)
  }

  lemma {:induction false} InsertSum(cells: seq<Triplet>, t: Triplet, i: nat, j: nat)
    ensures CellSum(Insert(cells, t), i, j) == CellSum(cells, i, j) + AtCell(t, i, j)
  {
    if cells == [] {
      CellSumPush([], t, i, j);
    } else {
      var front, last := cells[..|cells| - 1], cells[|cells| - 1];
      if Before(last, t) {
        CellSumPush(cells, t, i, j);
      } else if last.row == t.row && last.col == t.col {
        CellSumPush(front, last.(val := last.val + t.val), i, j);
      } else {
        InsertSum(front, t, i, j);
        CellSumPush(Insert(front, t), last, i, j);
      }
    }
  }

  /** Every cell of the result is the place of the new entry or of an old one. */
  lemma {:induction false} InsertPlaces(cells: seq<Triplet>, t: Triplet, k: nat)
    requires k < |Insert(cells, t)|
    ensures var c := Insert(cells, t)[k];
            (c.row == t.row && c.col == t.col) || c in cells
  {
    if cells != [] {
      var front, last := cells[..|cells| - 1], cells[|cells| - 1];
      assert cells == front + [last];
      if !Before(last, t) && !(last.row == t.row && last.col == t.col) && k < |Insert(front, t)| {
        InsertPlaces(front, t, k);
      }
    }
  }

  lemma {:induction false} InsertSorted(cells: seq<Triplet>, t: Triplet)
    requires Sorted(cells)
    ensures Sorted(Insert(cells, t))
  {
    if cells != [] {
      var front, last := cells[..|cells| - 1], cells[|cells| - 1];
      if Before(last, t) {
        forall k | 0 <= k < |cells| ensures Before(cells[k], t) {
          assert k < |front| ==> Before(cells[k], last);
        }
      } else if !(last.row == t.row && last.col == t.col) {
        InsertSorted(front, t);
        forall k | 0 <= k < |Insert(front, t)| ensures Before(Insert(front, t)[k], last) {
          InsertPlaces(front, t, k);
          var c := Insert(front, t)[k];
          if c in front {
            var m :| 0 <= m < |front| && front[m] == c;
            assert Before(cells[m], last);
          }
        }
      }
    }
  }

  /** Coalescing sorts the cells and keeps every cell's sum. */
  lemma {:induction false} CoalesceKeepsSums(ts: seq<Triplet>, i: nat, j: nat)
    ensures Sorted(Coalesce(ts)) && CellSum(Coalesce(ts), i, j) == CellSum(ts, i, j)
  {
    if ts != [] {
      CoalesceKeepsSums(ts[..|ts| - 1], i, j);
      InsertSum(Coalesce(ts[..|ts| - 1]), ts[|ts| - 1], i, j);
      InsertSorted(Coalesce(ts[..|ts| - 1]), ts[|ts| - 1]);
    }
  }

  // The compressed rows denote the coalesced cells.

  /** Entry `(i, j)` of a CSR matrix, reading the positions of row `i` up to `k`. */
  function CsrUpTo(m: Csr, i: nat, j: nat, k: nat): real
    requires i < |m.crow| && m.crow[i] <= k <= |m.cols| == |m.vals|
    decreases k
  {
    if k == m.crow[i] then 0.0 else CsrUpTo(m, i, j, k - 1) + if m.cols[k - 1] == j then m.vals[k - 1] else 0.0
  }

  ghost predicate WellFormed(m: Csr) {
    && |m.crow| == m.size + 1 && |m.cols| == |m.vals|
    && (forall i :: 0 <= i < m.size ==> m.crow[i] <= m.crow[i + 1])
    && (forall i :: 0 <= i <= m.size ==> m.crow[i] <= |m.cols|)
  }

  function CsrCell(m: Csr, i: nat, j: nat): real
    requires WellFormed(m) && i < m.size
  {
    CsrUpTo(m, i, j, m.crow[i + 1])
  }

  /** On sorted cells the rows below `row` come first. */
  lemma {:induction false} CountBelowSplits(cells: seq<Triplet>, row: nat)
    requires Sorted(cells)
    ensures CountBelow(cells, row) <= |cells|
    ensures forall k :: 0 <= k < |cells| ==> (cells[k].row < row <==> k < CountBelow(cells, row))
  {
    if cells != [] {
      var front := cells[..|cells| - 1];
      CountBelowSplits(front, row);
      forall k | 0 <= k < |cells| ensures cells[k].row < row <==> k < CountBelow(cells, row) {
        if k < |front| {
          assert front[k] == cells[k];
        }
        if cells[|cells| - 1].row < row && |front| > 0 {
          assert Before(cells[|front| - 1], cells[|cells| - 1]);
          assert front[|front| - 1].row < row;
        }
      }
    }
  }

  lemma {:induction false} CountBelowMonotone(cells: seq<Triplet>, row: nat)
    ensures CountBelow(cells, row) <= CountBelow(cells, row + 1)
  {
    if cells != [] {
      CountBelowMonotone(cells[..|cells| - 1], row);
    }
  }

  lemma CsrWellFormed(cells: seq<Triplet>, n: nat)
    requires Sorted(cells)
    ensures WellFormed(ToCsr(cells, n))
  {
    forall i | 0 <= i < n ensures CountBelow(cells, i) <= CountBelow(cells, i + 1) {
      CountBelowMonotone(cells, i);
    }
    forall i | 0 <= i <= n ensures CountBelow(cells, i) <= |cells| {
      CountBelowSplits(cells, i);
    }
  }

  /** The cells before position `k` of row `i` sum up to what is read from that row so far. */
  lemma {:induction false} PrefixSum(cells: seq<Triplet>, n: nat, i: nat, j: nat, k: nat)
    requires Sorted(cells) && i < n && CountBelow(cells, i) <= k <= CountBelow(cells, i + 1)
    ensures k <= |cells|
    ensures CellSum(cells[..k], i, j) == CsrUpTo(ToCsr(cells, n), i, j, k)
    decreases k
  {
    CountBelowSplits(cells, i);
    CountBelowSplits(cells, i + 1);
    if k == CountBelow(cells, i) {
      NothingThere(cells[..k], i, j);
    } else {
      PrefixSum(cells, n, i, j, k - 1);
      assert cells[..k][..k - 1] == cells[..k - 1];
      assert cells[k - 1].row == i;
    }
  }

  lemma {:induction false} NothingThere(cells: seq<Triplet>, i: nat, j: nat)
    requires forall k :: 0 <= k < |cells| ==> cells[k].row != i
    ensures CellSum(cells, i, j) == 0.0
  {
    if cells != [] {
      NothingThere(cells[..|cells| - 1], i, j);
    }
  }

  lemma {:induction false} CellSumConcat(a: seq<Triplet>, b: seq<Triplet>, i: nat, j: nat)
    ensures CellSum(a + b, i, j) == CellSum(a, i, j) + CellSum(b, i, j)
  {
    if b == [] {
      assert a + b == a;
    } else {
      assert (a + b)[..|a + b| - 1] == a + b[..|b| - 1];
      CellSumConcat(a, b[..|b| - 1], i, j);
    }
  }

  /** The rows after `i` hold nothing of row `i`. */
  lemma RestIsElsewhere(cells: seq<Triplet>, i: nat, j: nat, k: nat)
    requires Sorted(cells) && k == CountBelow(cells, i + 1)
    ensures k <= |cells| && CellSum(cells, i, j) == CellSum(cells[..k], i, j)
  {
    CountBelowSplits(cells, i + 1);
    assert cells == cells[..k] + cells[k..];
    NothingThere(cells[k..], i, j);
    CellSumConcat(cells[..k], cells[k..], i, j);
  }

  lemma CsrIsCellSum(cells: seq<Triplet>, n: nat, i: nat, j: nat)
    requires Sorted(cells) && i < n
    ensures WellFormed(ToCsr(cells, n)) && CsrCell(ToCsr(cells, n), i, j) == CellSum(cells, i, j)
  {
    var k := CountBelow(cells, i + 1);
    CsrWellFormed(cells, n);
    CountBelowMonotone(cells, i);
    PrefixSum(cells, n, i, j, k);
    RestIsElsewhere(cells, i, j, k);
  }

  /** The sparse matrix is the dense matrix, cell by cell. */
  lemma SparseIsDense(ids: seq<string>, edges: seq<Edge>, i: nat, j: nat)
    requires i < |ids| && forall k :: 0 <= k < |edges| ==> Resolves(ids, edges[k])
    ensures var m := ToCsr(Coalesce(Triplets(ids, edges)), |ids|);
            WellFormed(m) && CsrCell(m, i, j) == Dense(ids, edges, i, j)
  {
    var ts := Triplets(ids, edges);
    CoalesceKeepsSums(ts, i, j);
    CsrIsCellSum(Coalesce(ts), |ids|, i, j);
    TripletsAreDense(ids, edges, i, j);
  }

  // Products with a vector.

  /** Row `i` of a CSR matrix times `x`, over the positions of the row up to `k`. */
  function CsrDot(m: Csr, x: seq<real>, i: nat, k: nat): real
    requires i < |m.crow| && m.crow[i] <= k <= |m.cols| == |m.vals|
    requires forall p :: 0 <= p < |m.cols| ==> m.cols[p] < |x|
    decreases k
  {
    if k == m.crow[i] then 0.0 else CsrDot(m, x, i, k - 1) + m.vals[k - 1] * x[m.cols[k - 1]]
  }

  /** The same row taken cell by cell, from the first `n` columns. */
  function CellDot(m: Csr, x: seq<real>, i: nat, k: nat, n: nat): real
    requires i < |m.crow| && m.crow[i] <= k <= |m.cols| == |m.vals| && n <= |x|
  {
    if n == 0 then 0.0 else CellDot(m, x, i, k, n - 1) + CsrUpTo(m, i, n - 1, k) * x[n - 1]
  }

  lemma {:induction false} CellDotStep(m: Csr, x: seq<real>, i: nat, k: nat, n: nat)
    requires i < |m.crow| && m.crow[i] < k <= |m.cols| == |m.vals| && n <= |x|
    requires m.cols[k - 1] < |x|
    ensures CellDot(m, x, i, k, n) == CellDot(m, x, i, k - 1, n)
      + (if m.cols[k - 1] < n then m.vals[k - 1] * x[m.cols[k - 1]] else 0.0)
  {
    if n > 0 {
      CellDotStep(m, x, i, k, n - 1);
      var a, v, y := CsrUpTo(m, i, n - 1, k - 1), m.vals[k - 1], x[n - 1];
      assert (a + v) * y == a * y + v * y;
    }
  }

  lemma {:induction false} EmptyDot(m: Csr, x: seq<real>, i: nat, n: nat)
    requires i < |m.crow| && m.crow[i] <= |m.cols| == |m.vals| && n <= |x|
    ensures CellDot(m, x, i, m.crow[i], n) == 0.0
  {
    if n > 0 {
      EmptyDot(m, x, i, n - 1);
      assert 0.0 * x[n - 1] == 0.0;
    }
  }

  /** Walking a compressed row gives the product of the whole row, zeros included. */
  lemma {:induction false} DotsAgree(m: Csr, x: seq<real>, i: nat, k: nat)
    requires i < |m.crow| && m.crow[i] <= k <= |m.cols| == |m.vals|
    requires forall p :: 0 <= p < |m.cols| ==> m.cols[p] < |x|
    ensures CsrDot(m, x, i, k) == CellDot(m, x, i, k, |x|)
    decreases k
  {
    if k == m.crow[i] {
      EmptyDot(m, x, i, |x|);
    } else {
      DotsAgree(m, x, i, k - 1);
      CellDotStep(m, x, i, k, |x|);
      assert m.cols[k - 1] < |x|;
      assert CsrDot(m, x, i, k) == CsrDot(m, x, i, k - 1) + m.vals[k - 1] * x[m.cols[k - 1]];
    }
  }

  /** Row `i` of the dense matrix times the first `n` entries of `x`. */
  function DenseDot(ids: seq<string>, edges: seq<Edge>, x: seq<real>, i: nat, n: nat): real
    requires n <= |x| && forall k :: 0 <= k < |edges| ==> Resolves(ids, edges[k])
  {
    if n == 0 then 0.0 else DenseDot(ids, edges, x, i, n - 1) + Dense(ids, edges, i, n - 1) * x[n - 1]
  }

  lemma {:induction false} CellDotIsDense(m: Csr, ids: seq<string>, edges: seq<Edge>, x: seq<real>, i: nat, n: nat)
    requires WellFormed(m) && i < m.size && n <= |x| && forall k :: 0 <= k < |edges| ==> Resolves(ids, edges[k])
    requires forall j :: 0 <= j < n ==> CsrCell(m, i, j) == Dense(ids, edges, i, j)
    ensures CellDot(m, x, i, m.crow[i + 1], n) == DenseDot(ids, edges, x, i, n)
  {
    if n > 0 {
      CellDotIsDense(m, ids, edges, x, i, n - 1);
      assert CsrCell(m, i, n - 1) == Dense(ids, edges, i, n - 1);
    }
  }

  lemma {:induction false} TripletsInRange(ids: seq<string>, edges: seq<Edge>)
    requires forall k :: 0 <= k < |edges| ==> Resolves(ids, edges[k])
    ensures forall t :: t in Triplets(ids, edges) ==> t.row < |ids| && t.col < |ids|
  {
    if edges != [] {
      IndexInRange(ids);
      assert Resolves(ids, edges[|edges| - 1]);
      TripletsInRange(ids, edges[..|edges| - 1]);
    }
  }

  lemma {:induction false} CoalesceInRange(ts: seq<Triplet>, n: nat)
    requires forall k :: 0 <= k < |ts| ==> ts[k].row < n && ts[k].col < n
    ensures forall k :: 0 <= k < |Coalesce(ts)| ==> Coalesce(ts)[k].row < n && Coalesce(ts)[k].col < n
  {
    if ts != [] {
      var before, last := Coalesce(ts[..|ts| - 1]), ts[|ts| - 1];
      CoalesceInRange(ts[..|ts| - 1], n);
      forall k | 0 <= k < |Coalesce(ts)| ensures Coalesce(ts)[k].row < n && Coalesce(ts)[k].col < n {
        InsertPlaces(before, last, k);
        if Coalesce(ts)[k] in before {
          var m :| 0 <= m < |before| && before[m] == Coalesce(ts)[k];
        }
      }
    }
  }

  /** Hence the same matrix-vector product, row by row. */
  lemma SameProduct(ids: seq<string>, edges: seq<Edge>, x: seq<real>, i: nat)
    requires i < |ids| == |x| && forall k :: 0 <= k < |edges| ==> Resolves(ids, edges[k])
    ensures var m := ToCsr(Coalesce(Triplets(ids, edges)), |ids|);
            && WellFormed(m) && (forall p :: 0 <= p < |m.cols| ==> m.cols[p] < |x|)
            && CsrDot(m, x, i, m.crow[i + 1]) == DenseDot(ids, edges, x, i, |x|)
  {
    var ts := Triplets(ids, edges);
    var m := ToCsr(Coalesce(ts), |ids|);
    TripletsInRange(ids, edges);
    assert forall k :: 0 <= k < |ts| ==> ts[k] in ts;
    CoalesceInRange(ts, |ids|);
    forall j | 0 <= j < |x| ensures WellFormed(m) && CsrCell(m, i, j) == Dense(ids, edges, i, j) {
      SparseIsDense(ids, edges, i, j);
    }
    SparseIsDense(ids, edges, i, 0);
    CellDotIsDense(m, ids, edges, x, i, |x|);
    DotsAgree(m, x, i, m.crow[i + 1]);
  }

  // Storage.

  const INT64: nat := 8
  const FLOAT32: nat := 4

  function DenseBytes(n: nat): nat { FLOAT32 * (n * n) }

  function CsrBytes(m: Csr): nat {
    INT64 * |m.crow| + INT64 * |m.cols| + FLOAT32 * |m.vals|
  }

  /** At 95% sparsity the compressed form takes at most a fifth of the dense one from 41 rows on; with as
      many entries as that sparsity allows, 40 rows are too few. */
  lemma CsrSavesSpace(m: Csr)
    requires WellFormed(m) && 20 * |m.cols| <= m.size * m.size
    ensures m.size >= 41 ==> 5 * CsrBytes(m) <= DenseBytes(m.size)
    ensures m.size == 40 && |m.cols| == 80 ==> 5 * CsrBytes(m) > DenseBytes(m.size)
  {
    var n := m.size;
    if n >= 41 {
      assert n * n >= 41 * n;
    }
  }
}
