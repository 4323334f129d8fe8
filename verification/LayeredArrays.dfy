/** Plain arrays across layers: what the layers append stands layer by layer, the lowest first. */
module LayeredArrays {
  import opened Prelude
  import opened ConfigMerge
  import opened ConfigLaws

  /** Where neither array is keyed, the base's items come first and unchanged, then the override's. */
  lemma PlainInOrder(base: seq<Value>, over: seq<Value>)
    requires DetectField(base + over).None?
    ensures var r := MergeArrays(base, over);
            && r.Some? && |r.value| == |base| + |over|
            && (forall i :: 0 <= i < |base| ==> r.value[i] == base[i])
            && (forall j :: 0 <= j < |over| ==> r.value[|base| + j] == over[j])
  {
  }

  /** The layer holds a plain array at the path. */
  predicate HoldsPlain(layer: Value, path: seq<string>) {
    Lookup(layer, path).Some? && Lookup(layer, path).value.Arr? && Plain(Lookup(layer, path).value.items)
  }

  function ItemsAt(layer: Value, path: seq<string>): seq<Value> {
    if HoldsPlain(layer, path) then Lookup(layer, path).value.items else []
  }

  /** The items of all layers at the path, layer after layer. */
  function AllItems(layers: seq<Value>, path: seq<string>): seq<Value> {
    if layers == [] then [] else AllItems(layers[..|layers| - 1], path) + ItemsAt(layers[|layers| - 1], path)
  }

  lemma PlainConcat(a: seq<Value>, b: seq<Value>)
    requires Plain(a) && Plain(b)
    ensures Plain(a + b) && DetectField(a + b).None?
  {
    PlainTogether(a, b);
    if a == [] {
      assert a + b == b;
    } else {
      LackStays(a, b, "code");
      LackStays(a, b, "id");
    }
  }

  lemma MergePlainHere(base: Value, over: Value)
    requires base.Arr? && over.Arr? && Plain(base.items) && Plain(over.items)
    ensures DeepMerge(base, over) == Some(Arr(base.items + over.items)) && Plain(base.items + over.items)
  {
    hide Plain, DetectField;
    PlainConcat(base.items, over.items);
    PlainInOrder(base.items, over.items);
    assert MergeArrays(base.items, over.items).value == base.items + over.items;
  }

  lemma {:induction false} MergePlain(base: Value, over: Value, path: seq<string>)
    requires DeepMerge(base, over).Some?
    requires (Silent(base, path) || HoldsPlain(base, path)) && (Silent(over, path) || HoldsPlain(over, path))
    ensures var r := DeepMerge(base, over).value;
            if Silent(base, path) && Silent(over, path) then Silent(r, path)
            else HoldsPlain(r, path) && ItemsAt(r, path) == ItemsAt(base, path) + ItemsAt(over, path)
    decreases |path|
  {
    hide MergeArrays, Plain;
    if path == [] {
      MergePlainHere(base, over);
    } else if path[0] in base.entries && path[0] in over.entries {
      MergePlain(base.entries[path[0]], over.entries[path[0]], path[1..]);
    }
  }

  lemma SilentHoldsNothing(layer: Value, path: seq<string>)
    requires Silent(layer, path)
    ensures !HoldsPlain(layer, path) && ItemsAt(layer, path) == []
    decreases |path|
  {
    if path[0] in layer.entries {
      SilentHoldsNothing(layer.entries[path[0]], path[1..]);
    }
  }

  /** Folding any number of layers, each of which says nothing at the path or holds a plain array there, shows
      all their items, the lowest layer's first. */
  lemma {:induction false} FoldJoinsArrays(layers: seq<Value>, path: seq<string>)
    requires layers != [] && Fold(layers).Some?
    requires forall l :: 0 <= l < |layers| ==> Silent(layers[l], path) || HoldsPlain(layers[l], path)
    ensures Silent(Fold(layers).value, path) <==> forall l :: 0 <= l < |layers| ==> Silent(layers[l], path)
    ensures ItemsAt(Fold(layers).value, path) == AllItems(layers, path)
    ensures !Silent(Fold(layers).value, path) ==>
              HoldsPlain(Fold(layers).value, path)
              && Lookup(Fold(layers).value, path) == Some(Arr(AllItems(layers, path)))
    decreases |layers|
  {
    hide DeepMerge, Lookup, Plain, HoldsPlain, Silent, ItemsAt;
    var front, last := layers[..|layers| - 1], layers[|layers| - 1];
    assert layers == front + [last];
    NeverBoth(last, path);
    NeverBoth(Fold(layers).value, path);
    if front == [] {
      assert AllItems(front, path) == [];
    } else {
      assert forall l :: 0 <= l < |front| ==> front[l] == layers[l];
      FoldJoinsArrays(front, path);
      NeverBoth(Fold(front).value, path);
      MergePlain(Fold(front).value, last, path);
    }
  }

  lemma NeverBoth(layer: Value, path: seq<string>)
    ensures Silent(layer, path) ==> !HoldsPlain(layer, path)
    ensures !HoldsPlain(layer, path) ==> ItemsAt(layer, path) == []
    ensures HoldsPlain(layer, path) ==> Lookup(layer, path) == Some(Arr(ItemsAt(layer, path)))
  {
    if Silent(layer, path) {
      SilentHoldsNothing(layer, path);
    }
  }

  /** An item stands behind all items of lower layers and keeps its place within its own. */
  lemma {:induction false} ItemPlace(layers: seq<Value>, path: seq<string>, l: nat, j: nat)
    requires l < |layers| && j < |ItemsAt(layers[l], path)|
    ensures var at := |AllItems(layers[..l], path)| + j;
            at < |AllItems(layers, path)| && AllItems(layers, path)[at] == ItemsAt(layers[l], path)[j]
    decreases |layers|
  {
    hide ItemsAt;
    var front := layers[..|layers| - 1];
    if l < |front| {
      ItemPlace(front, path, l, j);
      assert front[..l] == layers[..l];
    }
  }
}
