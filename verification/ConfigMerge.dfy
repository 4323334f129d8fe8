/** The layered merge of _bmad/scripts/resolve_config.py on parsed TOML values. Scalars are compared as
    wholes; tables are unordered. An absent result is the TypeError of hashing a key that is not a
    scalar. */
module ConfigMerge {
  import opened Prelude

  datatype Value = Scalar(v: string) | Table(entries: map<string, Value>) | Arr(items: seq<Value>)

  predicate HasField(item: Value, field: string) {
    item.Table? && field in item.entries
  }

  predicate AllHave(items: seq<Value>, field: string) {
    forall i :: 0 <= i < |items| ==> HasField(items[i], field)
  }

  /** `_detect_keyed_merge_field`: `code` before `id`. */
  function DetectField(items: seq<Value>): Option<string> {
    if items == [] then None
    else if AllHave(items, "code") then Some("code")
    else if AllHave(items, "id") then Some("id")
    else None
  }

  /** The list under construction and where each key stands in it. */
  datatype Keyed = Keyed(result: seq<Value>, index: map<Value, nat>)

  predicate Hashable(item: Value, field: string) {
    HasField(item, field) ==> item.entries[field].Scalar?
  }

  function AddBase(k: Keyed, item: Value, field: string): Keyed {
    if !item.Table? then k
    else
      Keyed(k.result + [item],
            if HasField(item, field) then k.index[item.entries[field] := |k.result|] else k.index)
  }

  function AddOverride(k: Keyed, item: Value, field: string): Keyed {
    if !HasField(item, field) then k.(result := k.result + [item])
    else
      var key := item.entries[field];
      if key in k.index && k.index[key] < |k.result|
      then k.(result := k.result[k.index[key] := item])
      else Keyed(k.result + [item], k.index[key := |k.result|])
  }

  function AfterBase(base: seq<Value>, field: string): Keyed {
    if base == [] then Keyed([], map[]) else AddBase(AfterBase(base[..|base| - 1], field), base[|base| - 1], field)
  }

  function AfterOverride(base: seq<Value>, over: seq<Value>, field: string): Keyed {
    if over == [] then AfterBase(base, field)
    else AddOverride(AfterOverride(base, over[..|over| - 1], field), over[|over| - 1], field)
  }

  predicate AllHashable(items: seq<Value>, field: string) {
    forall i :: 0 <= i < |items| ==> Hashable(items[i], field)
  }

  /** `_merge_by_key`. */
  function MergeByKey(base: seq<Value>, over: seq<Value>, field: string): Option<seq<Value>> {
    if AllHashable(base, field) && AllHashable(over, field) then Some(AfterOverride(base, over, field).result) else None
  }

  lemma {:induction false} BaseIndexInBounds(base: seq<Value>, field: string)
    ensures forall key :: key in AfterBase(base, field).index ==>
      AfterBase(base, field).index[key] < |AfterBase(base, field).result|
  {
    if base != [] {
      BaseIndexInBounds(base[..|base| - 1], field);
    }
  }

  lemma {:induction false} IndexInBounds(base: seq<Value>, over: seq<Value>, field: string)
    ensures forall key :: key in AfterOverride(base, over, field).index ==>
      AfterOverride(base, over, field).index[key] < |AfterOverride(base, over, field).result|
  {
    if over == [] {
      BaseIndexInBounds(base, field);
    } else {
      IndexInBounds(base, over[..|over| - 1], field);
    }
  }

  method MergeKeyed(base: seq<Value>, over: seq<Value>, field: string) returns (r: Option<seq<Value>>)
    ensures r == MergeByKey(base, over, field)
  {
    var result: seq<Value> := [];
    var index: map<Value, nat> := map[];
    for i := 0 to |base|
      invariant Keyed(result, index) == AfterBase(base[..i], field)
      invariant forall m :: 0 <= m < i ==> Hashable(base[m], field)
    {
      var item := base[i];
      assert base[..i + 1][..i] == base[..i];
      if !item.Table? {
        continue;
      }
      if field in item.entries {
        if !item.entries[field].Scalar? {
          return None;
        }
        index := index[item.entries[field] := |result|];
      }
      result := result + [item];
    }
    assert base[..|base|] == base;
    for i := 0 to |over|
      invariant Keyed(result, index) == AfterOverride(base, over[..i], field)
      invariant forall m :: 0 <= m < i ==> Hashable(over[m], field)
    {
      var item := over[i];
      assert over[..i + 1][..i] == over[..i];
      IndexInBounds(base, over[..i], field);
      if !item.Table? || field !in item.entries {
        result := result + [item];
        continue;
      }
      var key := item.entries[field];
      if !key.Scalar? {
        return None;
      }
      if key in index {
        result := result[index[key] := item];
      } else {
        index := index[key := |result|];
        result := result + [item];
      }
    }
    assert over[..|over|] == over;
    r := Some(result);
  }

  function MergeArrays(base: seq<Value>, over: seq<Value>): Option<seq<Value>> {
    match DetectField(base + over)
    case Some(field) => MergeByKey(base, over, field)
    case None => Some(base + over)
  }

  /** `deep_merge`. */
  function DeepMerge(base: Value, over: Value): Option<Value>
    decreases base
  {
    if base.Table? && over.Table? then
      if forall k :: k in base.entries && k in over.entries ==> DeepMerge(base.entries[k], over.entries[k]).Some?
      then
        Some(Table(map k | k in base.entries.Keys + over.entries.Keys ::
          if k in base.entries && k in over.entries then DeepMerge(base.entries[k], over.entries[k]).value
          else if k in base.entries then base.entries[k] else over.entries[k]))
      else None
    else if base.Arr? && over.Arr? then
      var items := MergeArrays(base.items, over.items);
      if items.None? then None else Some(Arr(items.value))
    else Some(over)
  }

  // Tables.

  /** The empty table is neutral on both sides. */
  lemma EmptyIsNeutral(t: map<string, Value>)
    ensures DeepMerge(Table(map[]), Table(t)) == Some(Table(t))
    ensures DeepMerge(Table(t), Table(map[])) == Some(Table(t))
  {
    assert DeepMerge(Table(map[]), Table(t)).value.entries == t;
    assert DeepMerge(Table(t), Table(map[])).value.entries == t;
  }

  // Reading a path.

  /** `extract_key` on a split path. */
  function Lookup(v: Value, path: seq<string>): Option<Value>
    decreases |path|
  {
    if path == [] then Some(v)
    else if v.Table? && path[0] in v.entries then Lookup(v.entries[path[0]], path[1..])
    else None
  }

  /** The layer says nothing about the path: it is tables all the way to the first missing key. */
  predicate Silent(v: Value, path: seq<string>)
    decreases |path|
  {
    path != [] && v.Table? && (path[0] in v.entries ==> Silent(v.entries[path[0]], path[1..]))
  }

  /** A scalar in the overriding layer is what the merge shows there. */
  lemma {:induction false} OverrideScalarWins(base: Value, over: Value, path: seq<string>, s: string)
    requires DeepMerge(base, over).Some? && Lookup(over, path) == Some(Scalar(s))
    ensures Lookup(DeepMerge(base, over).value, path) == Some(Scalar(s))
    decreases |path|
  {
    if path != [] && base.Table? && path[0] in base.entries {
      OverrideScalarWins(base.entries[path[0]], over.entries[path[0]], path[1..], s);
    }
  }

  /** Where the overriding layer is silent, the base shows through. */
  lemma {:induction false} SilentKeepsScalar(base: Value, over: Value, path: seq<string>, s: string)
    requires DeepMerge(base, over).Some? && Silent(over, path) && Lookup(base, path) == Some(Scalar(s))
    ensures Lookup(DeepMerge(base, over).value, path) == Some(Scalar(s))
    decreases |path|
  {
    if path[0] in over.entries {
      SilentKeepsScalar(base.entries[path[0]], over.entries[path[0]], path[1..], s);
    }
  }

  /** The layers merged lowest first. */
  function Fold(layers: seq<Value>): Option<Value>
    requires layers != []
  {
    if |layers| == 1 then Some(layers[0])
    else
      var below := Fold(layers[..|layers| - 1]);
      if below.None? then None else DeepMerge(below.value, layers[|layers| - 1])
  }

  /** The result shows, at every path, the scalar of the highest layer that has one there and below
      which only silent layers follow. */
  lemma {:induction false} HighestLayerWins(layers: seq<Value>, h: nat, path: seq<string>, s: string)
    requires h < |layers| && Fold(layers).Some? && Lookup(layers[h], path) == Some(Scalar(s))
    requires forall j :: h < j < |layers| ==> Silent(layers[j], path)
    ensures Lookup(Fold(layers).value, path) == Some(Scalar(s))
    decreases |layers|
  {
    if |layers| > 1 {
      var front, last := layers[..|layers| - 1], layers[|layers| - 1];
      if h == |layers| - 1 {
        OverrideScalarWins(Fold(front).value, last, path, s);
      } else {
        HighestLayerWins(front, h, path, s);
        SilentKeepsScalar(Fold(front).value, last, path, s);
      }
    }
  }

  /** One layer is itself, and an empty layer may be added below or above without effect. */
  lemma {:induction false} FoldEdges(layers: seq<Value>)
    requires layers != [] && forall l :: 0 <= l < |layers| ==> layers[l].Table?
    ensures Fold([layers[0]]) == Some(layers[0])
    ensures Fold([Table(map[])] + layers) == Fold(layers) == Fold(layers + [Table(map[])])
    ensures Fold(layers).Some? ==> Fold(layers).value.Table?
    decreases |layers|
  {
    var none, front, last := Table(map[]), layers[..|layers| - 1], layers[|layers| - 1];
    assert (layers + [none])[..|layers|] == layers;
    EmptyIsNeutral(last.entries);
    if front == [] {
      assert layers == [last] && [none] + layers == [none, last] && [none, last][..1] == [none];
    } else {
      FoldEdges(front);
      assert ([none] + layers)[..|layers|] == [none] + front;
    }
    if Fold(layers).Some? {
      EmptyIsNeutral(Fold(layers).value.entries);
    }
  }
}
