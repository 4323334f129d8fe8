/** The dense adjacency matrix of engine/tensor/adjacency.py. */
module Adjacency {
  import opened Prelude
  import opened GraphBuilder

  datatype TensorError = UnknownNode

  /** Node ids to row numbers; a repeated id keeps its last position. */
  function IndexOf(ids: seq<string>): map<string, nat> {
    if ids == [] then map[] else IndexOf(ids[..|ids| - 1])[ids[|ids| - 1] := |ids| - 1]
  }

  lemma {:induction false} IndexInRange(ids: seq<string>)
    ensures forall id :: id in ids <==> id in IndexOf(ids)
    ensures forall id :: id in IndexOf(ids) ==> IndexOf(ids)[id] < |ids| && ids[IndexOf(ids)[id]] == id
  {
    if ids != [] {
      IndexInRange(ids[..|ids| - 1]);
      assert ids == ids[..|ids| - 1] + [ids[|ids| - 1]];
    }
  }

  predicate Resolves(ids: seq<string>, e: Edge) {
    e.src in ids && e.dst in ids
  }

  /** What one edge adds to a cell: its weight once on the diagonal for a self-loop, otherwise on both
      sides of it. */
  function Contribution(index: map<string, nat>, e: Edge, i: nat, j: nat): real
    requires e.src in index && e.dst in index
  {
    var a, b := index[e.src], index[e.dst];
    if (i == a && j == b) || (i == b && j == a) then e.weight else 0.0
  }

  function Dense(ids: seq<string>, edges: seq<Edge>, i: nat, j: nat): real
    requires forall k :: 0 <= k < |edges| ==> Resolves(ids, edges[k])
  {
    if edges == [] then 0.0
    else
      IndexInRange(ids);
      assert Resolves(ids, edges[|edges| - 1]);
      Dense(ids, edges[..|edges| - 1], i, j) + Contribution(IndexOf(ids), edges[|edges| - 1], i, j)
  }

  method BuildIndex(ids: seq<string>) returns (index: map<string, nat>)
    ensures index == IndexOf(ids)
  {
    index := map[];
    for i := 0 to |ids|
      invariant index == IndexOf(ids[..i])
    {
      assert ids[..i + 1][..i] == ids[..i];
      index := index[ids[i] := i];
    }
    assert ids[..|ids|] == ids;
  }

  lemma DensePrefix(ids: seq<string>, edges: seq<Edge>, k: nat, i: nat, j: nat)
    requires k < |edges| && forall m :: 0 <= m <= k ==> Resolves(ids, edges[m])
    ensures edges[k].src in IndexOf(ids) && edges[k].dst in IndexOf(ids)
    ensures Dense(ids, edges[..k + 1], i, j)
         == Dense(ids, edges[..k], i, j) + Contribution(IndexOf(ids), edges[k], i, j)
  {
    IndexInRange(ids);
    assert edges[..k + 1][..k] == edges[..k] && Resolves(ids, edges[k]);
  }

  lemma NothingAdded(ids: seq<string>)
    ensures forall i: nat, j: nat :: Dense(ids, [], i, j) == 0.0
  {
  }

  /** An edge to an unknown node is an error, never dropped. */
  method AdjacencyTensor(ids: seq<string>, edges: seq<Edge>) returns (r: Result<array2<real>, TensorError>)
    ensures r.Ok? <==> forall k :: 0 <= k < |edges| ==> Resolves(ids, edges[k])
    ensures r.Ok? ==> r.value.Length0 == r.value.Length1 == |ids|
    ensures r.Ok? ==> forall i, j :: 0 <= i < |ids| && 0 <= j < |ids| ==> r.value[i, j] == Dense(ids, edges, i, j)
  {
    hide Dense;
    var index := BuildIndex(ids);
    IndexInRange(ids);
    NothingAdded(ids);
    var adj := new real[|ids|, |ids|]((i, j) => 0.0);
    for k := 0 to |edges|
      invariant forall m :: 0 <= m < k ==> Resolves(ids, edges[m])
      invariant forall i, j :: 0 <= i < |ids| && 0 <= j < |ids| ==> adj[i, j] == Dense(ids, edges[..k], i, j)
    {
      var e := edges[k];
      if e.src !in index || e.dst !in index {
        return Err(UnknownNode);
      }
      assert Resolves(ids, e);
      forall a, b | 0 <= a < |ids| && 0 <= b < |ids|
        ensures Dense(ids, edges[..k + 1], a, b) == Dense(ids, edges[..k], a, b) + Contribution(index, e, a, b)
      {
        DensePrefix(ids, edges, k, a, b);
      }
      var i, j := index[e.src], index[e.dst];
      if i == j {
        adj[i, i] := adj[i, i] + e.weight;
      } else {
        adj[i, j] := adj[i, j] + e.weight;
        adj[j, i] := adj[j, i] + e.weight;
      }
    }
    assert edges[..|edges|] == edges;
    r := Ok(adj);
  }

  // Laws of the matrix.

  lemma {:induction false} DenseSymmetric(ids: seq<string>, edges: seq<Edge>, i: nat, j: nat)
    requires forall k :: 0 <= k < |edges| ==> Resolves(ids, edges[k])
    ensures Dense(ids, edges, i, j) == Dense(ids, edges, j, i)
  {
    if edges != [] {
      DenseSymmetric(ids, edges[..|edges| - 1], i, j);
    }
  }

  /** The weight between two nodes, by name: every edge that joins them, in whichever direction. */
  function JoiningWeight(edges: seq<Edge>, x: string, y: string): real {
    if edges == [] then 0.0
    else
      var e := edges[|edges| - 1];
      JoiningWeight(edges[..|edges| - 1], x, y)
      + if (e.src == x && e.dst == y) || (e.src == y && e.dst == x) then e.weight else 0.0
  }

  /** With distinct names, row and column number the nodes in the given order. */
  lemma {:induction false} CellsAreWeights(ids: seq<string>, edges: seq<Edge>, i: nat, j: nat)
    requires i < |ids| && j < |ids| && forall k, l :: 0 <= k < l < |ids| ==> ids[k] != ids[l]
    requires forall k :: 0 <= k < |edges| ==> Resolves(ids, edges[k])
    ensures Dense(ids, edges, i, j) == JoiningWeight(edges, ids[i], ids[j])
  {
    hide IndexOf;
    IndexInRange(ids);
    if edges != [] {
      CellsAreWeights(ids, edges[..|edges| - 1], i, j);
      assert Resolves(ids, edges[|edges| - 1]);
    }
  }

  function RowSum(ids: seq<string>, edges: seq<Edge>, i: nat, m: nat): real
    requires forall k :: 0 <= k < |edges| ==> Resolves(ids, edges[k])
  {
    if m == 0 then 0.0 else RowSum(ids, edges, i, m - 1) + Dense(ids, edges, i, m - 1)
  }

  /** The sum of the entries in the first `n` rows and `m` columns. */
  function EntrySum(ids: seq<string>, edges: seq<Edge>, n: nat, m: nat): real
    requires forall k :: 0 <= k < |edges| ==> Resolves(ids, edges[k])
  {
    if n == 0 then 0.0 else EntrySum(ids, edges, n - 1, m) + RowSum(ids, edges, n - 1, m)
  }

  /** Twice each ordinary weight and once each self-loop's. */
  function WeightSum(ids: seq<string>, edges: seq<Edge>): real
    requires forall k :: 0 <= k < |edges| ==> Resolves(ids, edges[k])
  {
    if edges == [] then 0.0
    else
      var e := edges[|edges| - 1];
      WeightSum(ids, edges[..|edges| - 1]) + if e.src == e.dst then e.weight else 2.0 * e.weight
  }

  function ContributionRow(index: map<string, nat>, e: Edge, i: nat, m: nat): real
    requires e.src in index && e.dst in index
  {
    if m == 0 then 0.0 else ContributionRow(index, e, i, m - 1) + Contribution(index, e, i, m - 1)
  }

  function ContributionSum(index: map<string, nat>, e: Edge, n: nat, m: nat): real
    requires e.src in index && e.dst in index
  {
    if n == 0 then 0.0 else ContributionSum(index, e, n - 1, m) + ContributionRow(index, e, n - 1, m)
  }

  lemma {:induction false} RowSumStep(ids: seq<string>, edges: seq<Edge>, i: nat, m: nat)
    requires edges != [] && forall k :: 0 <= k < |edges| ==> Resolves(ids, edges[k])
    ensures edges[|edges| - 1].src in IndexOf(ids) && edges[|edges| - 1].dst in IndexOf(ids)
    ensures RowSum(ids, edges, i, m)
         == RowSum(ids, edges[..|edges| - 1], i, m) + ContributionRow(IndexOf(ids), edges[|edges| - 1], i, m)
  {
    IndexInRange(ids);
    if m > 0 {
      RowSumStep(ids, edges, i, m - 1);
    }
  }

  lemma {:induction false} EntrySumStep(ids: seq<string>, edges: seq<Edge>, n: nat, m: nat)
    requires edges != [] && forall k :: 0 <= k < |edges| ==> Resolves(ids, edges[k])
    ensures edges[|edges| - 1].src in IndexOf(ids) && edges[|edges| - 1].dst in IndexOf(ids)
    ensures EntrySum(ids, edges, n, m)
         == EntrySum(ids, edges[..|edges| - 1], n, m) + ContributionSum(IndexOf(ids), edges[|edges| - 1], n, m)
  {
    IndexInRange(ids);
    if n > 0 {
      EntrySumStep(ids, edges, n - 1, m);
      RowSumStep(ids, edges, n - 1, m);
    }
  }

  lemma {:induction false} EdgeRow(index: map<string, nat>, e: Edge, i: nat, m: nat)
    requires e.src in index && e.dst in index
    ensures var a, b := index[e.src], index[e.dst];
            ContributionRow(index, e, i, m) ==
            if i == a && b < m then e.weight else if i == b && a < m then e.weight else 0.0
  {
    if m > 0 {
      EdgeRow(index, e, i, m - 1);
    }
  }

  lemma {:induction false} EdgeSum(index: map<string, nat>, e: Edge, n: nat, m: nat)
    requires e.src in index && e.dst in index && index[e.src] < m && index[e.dst] < m
    ensures var a, b := index[e.src], index[e.dst];
            ContributionSum(index, e, n, m) ==
            (if a < n then e.weight else 0.0) + (if b < n && a != b then e.weight else 0.0)
  {
    if n > 0 {
      EdgeSum(index, e, n - 1, m);
      EdgeRow(index, e, n - 1, m);
    }
  }

  /** The entries of the whole matrix add up to twice each non-loop weight plus once each loop weight. */
  lemma {:induction false} EntriesAddUp(ids: seq<string>, edges: seq<Edge>)
    requires forall k :: 0 <= k < |edges| ==> Resolves(ids, edges[k])
    ensures EntrySum(ids, edges, |ids|, |ids|) == WeightSum(ids, edges)
  {
    if edges == [] {
      NoEntries(ids, |ids|, |ids|);
    } else {
      var e := edges[|edges| - 1];
      EntriesAddUp(ids, edges[..|edges| - 1]);
      EntrySumStep(ids, edges, |ids|, |ids|);
      IndexInRange(ids);
      EdgeSum(IndexOf(ids), e, |ids|, |ids|);
      assert ids[IndexOf(ids)[e.src]] == e.src && ids[IndexOf(ids)[e.dst]] == e.dst;
    }
  }

  lemma {:induction false} NoEntries(ids: seq<string>, n: nat, m: nat)
    ensures EntrySum(ids, [], n, m) == 0.0
  {
    if n > 0 {
      NoEntries(ids, n - 1, m);
      EmptyRow(ids, n - 1, m);
    }
  }

  lemma {:induction false} EmptyRow(ids: seq<string>, i: nat, m: nat)
    ensures RowSum(ids, [], i, m) == 0.0
  {
    if m > 0 {
      EmptyRow(ids, i, m - 1);
    }
  }
}
