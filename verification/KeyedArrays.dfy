/** Arrays of tables keyed on one field: they behave like ordered dictionaries. Merging them is putting the
    overriding items one by one, and where a key recurs, every place of the result is still known. */
module KeyedArrays {
  import opened Prelude
  import opened ConfigMerge

  // Arrays keyed on one field.

  predicate AllKeyed(items: seq<Value>, field: string) {
    forall i :: 0 <= i < |items| ==> HasField(items[i], field) && items[i].entries[field].Scalar?
  }

  function Key(item: Value, field: string): Value
    requires HasField(item, field)
  {
    item.entries[field]
  }

  predicate UniquelyKeyed(items: seq<Value>, field: string) {
    AllKeyed(items, field) &&
    forall i, j :: 0 <= i < j < |items| ==> Key(items[i], field) != Key(items[j], field)
  }

  predicate IsItem(item: Value, field: string) {
    HasField(item, field) && Key(item, field).Scalar?
  }

  /** Where the key stands, or the length. */
  function Position(items: seq<Value>, key: Value, field: string): (p: nat)
    requires AllKeyed(items, field)
    ensures p <= |items|
    ensures p < |items| ==> Key(items[p], field) == key
    ensures forall i :: 0 <= i < p ==> Key(items[i], field) != key
  {
    if items == [] then 0
    else if Key(items[0], field) == key then 0
    else 1 + Position(items[1..], key, field)
  }

  /** Replace the item with the same key where it stands, or append. */
  function Put(items: seq<Value>, item: Value, field: string): (r: seq<Value>)
    requires AllKeyed(items, field) && IsItem(item, field)
    ensures AllKeyed(r, field)
    ensures UniquelyKeyed(items, field) ==> UniquelyKeyed(r, field)
    ensures |items| <= |r| && item in r
  {
    var p := Position(items, Key(item, field), field);
    if p < |items| then
      var r := items[p := item];
      assert r[p] == item;
      r
    else
      var r := items + [item];
      assert r[|items|] == item;
      r
  }

  function PutAll(base: seq<Value>, over: seq<Value>, field: string): (r: seq<Value>)
    requires AllKeyed(base, field) && AllKeyed(over, field)
    ensures AllKeyed(r, field)
    ensures UniquelyKeyed(base, field) ==> UniquelyKeyed(r, field)
  {
    if over == [] then base else Put(PutAll(base, over[..|over| - 1], field), over[|over| - 1], field)
  }

  /** The index of the loop knows exactly where each key stands. */
  ghost predicate IndexIsExact(k: Keyed, field: string) {
    && AllKeyed(k.result, field)
    && (forall key :: key in k.index ==> k.index[key] < |k.result| && Key(k.result[k.index[key]], field) == key)
    && (forall i :: 0 <= i < |k.result| ==> Key(k.result[i], field) in k.index)
    && UniquelyKeyed(k.result, field)
  }

  lemma AddBaseKeepsIndex(k: Keyed, item: Value, field: string)
    requires IndexIsExact(k, field) && IsItem(item, field)
    requires forall i :: 0 <= i < |k.result| ==> Key(k.result[i], field) != Key(item, field)
    ensures IndexIsExact(AddBase(k, item, field), field)
  {
    var r := AddBase(k, item, field);
    assert r.result == k.result + [item];
    forall key | key in r.index
      ensures r.index[key] < |r.result| && Key(r.result[r.index[key]], field) == key
    {
      if key != Key(item, field) {
        assert key in k.index;
      }
    }
  }

  lemma {:induction false} BaseIsCopied(base: seq<Value>, field: string)
    requires UniquelyKeyed(base, field)
    ensures AfterBase(base, field).result == base && IndexIsExact(AfterBase(base, field), field)
  {
    if base != [] {
      var front, last := base[..|base| - 1], base[|base| - 1];
      assert base == front + [last];
      assert forall i :: 0 <= i < |front| ==> Key(front[i], field) != Key(last, field);
      BaseIsCopied(front, field);
      AddBaseKeepsIndex(AfterBase(front, field), last, field);
    }
  }

  lemma AddIsPut(k: Keyed, item: Value, field: string)
    requires IndexIsExact(k, field) && IsItem(item, field)
    ensures IndexIsExact(AddOverride(k, item, field), field)
    ensures AddOverride(k, item, field).result == Put(k.result, item, field)
  {
    var key := Key(item, field);
    var p := Position(k.result, key, field);
    if key in k.index {
      assert k.index[key] == p;
    }
  }

  lemma {:induction false} OverrideIsPutAll(base: seq<Value>, over: seq<Value>, field: string)
    requires UniquelyKeyed(base, field) && AllKeyed(over, field)
    ensures IndexIsExact(AfterOverride(base, over, field), field)
    ensures AfterOverride(base, over, field).result == PutAll(base, over, field)
  {
    if over == [] {
      BaseIsCopied(base, field);
    } else {
      OverrideIsPutAll(base, over[..|over| - 1], field);
      AddIsPut(AfterOverride(base, over[..|over| - 1], field), over[|over| - 1], field);
    }
  }

  /** On a uniquely keyed base the two loops put the overriding items one by one. */
  lemma MergeIsPutAll(base: seq<Value>, over: seq<Value>, field: string)
    requires UniquelyKeyed(base, field) && AllKeyed(over, field)
    ensures MergeByKey(base, over, field) == Some(PutAll(base, over, field))
  {
    OverrideIsPutAll(base, over, field);
  }

  // Putting is associative.

  predicate Occurs(items: seq<Value>, key: Value, field: string)
    requires AllKeyed(items, field)
  {
    Position(items, key, field) < |items|
  }

  lemma OccursAt(items: seq<Value>, i: nat, field: string)
    requires UniquelyKeyed(items, field) && i < |items|
    ensures Position(items, Key(items[i], field), field) == i
  {
  }

  lemma PutTwice(items: seq<Value>, first: Value, second: Value, field: string)
    requires UniquelyKeyed(items, field) && IsItem(first, field) && IsItem(second, field)
    requires Key(first, field) == Key(second, field)
    ensures Put(Put(items, first, field), second, field) == Put(items, second, field)
  {
    var p := Position(items, Key(first, field), field);
    OccursAt(Put(items, first, field), p, field);
  }

  lemma PutKeepsKeys(items: seq<Value>, item: Value, key: Value, field: string)
    requires UniquelyKeyed(items, field) && IsItem(item, field)
    ensures Occurs(Put(items, item, field), key, field) <==> Occurs(items, key, field) || key == Key(item, field)
  {
    var r := Put(items, item, field);
    var p := Position(items, key, field);
    if p < |items| && key != Key(item, field) {
      OccursAt(r, p, field);
    }
    var q := Position(items, Key(item, field), field);
    OccursAt(r, q, field);
  }

  lemma PutAt(items: seq<Value>, i: nat, item: Value, field: string)
    requires UniquelyKeyed(items, field) && IsItem(item, field)
    requires i < |items| && Key(items[i], field) == Key(item, field)
    ensures Put(items, item, field) == items[i := item]
  {
    OccursAt(items, i, field);
  }

  lemma PutNew(items: seq<Value>, item: Value, field: string)
    requires AllKeyed(items, field) && IsItem(item, field) && !Occurs(items, Key(item, field), field)
    ensures Put(items, item, field) == items + [item]
  {
  }

  lemma PutsCommute(items: seq<Value>, known: Value, other: Value, field: string)
    requires UniquelyKeyed(items, field) && IsItem(known, field) && IsItem(other, field)
    requires Key(known, field) != Key(other, field) && Occurs(items, Key(known, field), field)
    ensures Put(Put(items, known, field), other, field) == Put(Put(items, other, field), known, field)
  {
    hide Put;
    var p := Position(items, Key(known, field), field);
    var q := Position(items, Key(other, field), field);
    PutAt(items, p, known, field);
    if q < |items| {
      PutAt(items, q, other, field);
      PutAt(Put(items, known, field), q, other, field);
    } else {
      PutNew(items, other, field);
      PutKeepsKeys(items, known, Key(other, field), field);
      PutNew(Put(items, known, field), other, field);
    }
    PutAt(Put(items, other, field), p, known, field);
  }

  lemma {:induction false} PutAllHasKeys(base: seq<Value>, over: seq<Value>, i: nat, field: string)
    requires UniquelyKeyed(base, field) && AllKeyed(over, field) && i < |over|
    ensures Occurs(PutAll(base, over, field), Key(over[i], field), field)
  {
    var front, last := over[..|over| - 1], over[|over| - 1];
    PutKeepsKeys(PutAll(base, front, field), last, Key(over[i], field), field);
    if i < |front| {
      PutAllHasKeys(base, front, i, field);
    }
  }

  lemma PutAllStep(base: seq<Value>, front: seq<Value>, last: Value, field: string)
    requires AllKeyed(base, field) && AllKeyed(front, field) && IsItem(last, field)
    ensures AllKeyed(front + [last], field)
    ensures PutAll(base, front + [last], field) == Put(PutAll(base, front, field), last, field)
  {
    assert (front + [last])[..|front|] == front;
  }

  lemma UpdatedStaysKeyed(over: seq<Value>, i: nat, item: Value, field: string)
    requires AllKeyed(over, field) && IsItem(item, field) && i < |over|
    ensures AllKeyed(over[i := item], field)
  {
  }

  /** Replacing an item of the overriding array is putting the new one afterwards. */
  lemma {:induction false} PutAllUpdated(base: seq<Value>, over: seq<Value>, i: nat, item: Value, field: string)
    requires UniquelyKeyed(base, field) && UniquelyKeyed(over, field) && IsItem(item, field)
    requires i < |over| && Key(over[i], field) == Key(item, field)
    ensures AllKeyed(over[i := item], field)
    ensures PutAll(base, over[i := item], field) == Put(PutAll(base, over, field), item, field)
    decreases |over|
  {
    hide PutAll, Put, HasField;
    var front, last := over[..|over| - 1], over[|over| - 1];
    assert over == front + [last];
    PutAllStep(base, front, last, field);
    UpdatedStaysKeyed(over, i, item, field);
    if i == |front| {
      assert over[i := item] == front + [item];
      PutAllStep(base, front, item, field);
      PutTwice(PutAll(base, front, field), last, item, field);
    } else {
      assert over[i := item] == front[i := item] + [last];
      assert front[i] == over[i] && Key(front[i], field) != Key(last, field);
      PutAllUpdated(base, front, i, item, field);
      PutAllStep(base, front[i := item], last, field);
      PutAllHasKeys(base, front, i, field);
      PutsCommute(PutAll(base, front, field), item, last, field);
    }
  }

  lemma PutAllPut(base: seq<Value>, over: seq<Value>, item: Value, field: string)
    requires UniquelyKeyed(base, field) && UniquelyKeyed(over, field) && IsItem(item, field)
    ensures PutAll(base, Put(over, item, field), field) == Put(PutAll(base, over, field), item, field)
  {
    var p := Position(over, Key(item, field), field);
    if p < |over| {
      PutAllUpdated(base, over, p, item, field);
    } else {
      assert (over + [item])[..|over|] == over;
    }
  }

  lemma {:induction false} PutAllAssociates(a: seq<Value>, b: seq<Value>, c: seq<Value>, field: string)
    requires UniquelyKeyed(a, field) && UniquelyKeyed(b, field) && AllKeyed(c, field)
    ensures PutAll(PutAll(a, b, field), c, field) == PutAll(a, PutAll(b, c, field), field)
  {
    if c != [] {
      PutAllAssociates(a, b, c[..|c| - 1], field);
      PutAllPut(a, PutAll(b, c[..|c| - 1], field), c[|c| - 1], field);
    }
  }

  lemma {:induction false} PutAllKeepsOverride(base: seq<Value>, over: seq<Value>, i: nat, field: string)
    requires UniquelyKeyed(base, field) && UniquelyKeyed(over, field) && i < |over|
    ensures over[i] in PutAll(base, over, field)
  {
    var front, last := over[..|over| - 1], over[|over| - 1];
    if i < |front| {
      PutAllKeepsOverride(base, front, i, field);
      assert front[i] == over[i] && Key(front[i], field) != Key(last, field);
      var below := PutAll(base, front, field);
      var j :| 0 <= j < |below| && below[j] == over[i];
      assert Put(below, last, field)[j] == over[i];
    }
  }

  // Any keys, recurring ones included.

  /** Where the key stands last, or the length. */
  function LastPosition(items: seq<Value>, key: Value, field: string): (p: nat)
    requires AllKeyed(items, field)
    ensures p <= |items|
    ensures p < |items| ==> Key(items[p], field) == key
    ensures forall i :: (if p < |items| then p + 1 else 0) <= i < |items| ==> Key(items[i], field) != key
  {
    if items == [] then 0
    else if Key(items[|items| - 1], field) == key then |items| - 1
    else
      var p := LastPosition(items[..|items| - 1], key, field);
      if p < |items| - 1 then p else |items|
  }

  predicate Has(items: seq<Value>, key: Value, field: string)
    requires AllKeyed(items, field)
  {
    LastPosition(items, key, field) < |items|
  }

  lemma HasAt(items: seq<Value>, i: nat, field: string)
    requires AllKeyed(items, field) && i < |items|
    ensures Has(items, Key(items[i], field), field) && i <= LastPosition(items, Key(items[i], field), field)
  {
  }

  lemma LastPositionPush(items: seq<Value>, item: Value, key: Value, field: string)
    requires AllKeyed(items, field) && IsItem(item, field)
    ensures AllKeyed(items + [item], field)
    ensures Key(item, field) == key ==> LastPosition(items + [item], key, field) == |items|
    ensures Key(item, field) != key && Has(items, key, field) ==>
              LastPosition(items + [item], key, field) == LastPosition(items, key, field)
    ensures Key(item, field) != key && !Has(items, key, field) ==>
              LastPosition(items + [item], key, field) == |items| + 1
  {
    assert (items + [item])[..|items|] == items;
  }

  /** What the base's place `q` shows: where its key stands last, the last overriding item of that key. */
  function Shown(base: seq<Value>, over: seq<Value>, q: nat, field: string): Value
    requires AllKeyed(base, field) && AllKeyed(over, field) && q < |base|
  {
    var key := Key(base[q], field);
    var last := LastPosition(over, key, field);
    if LastPosition(base, key, field) == q && last < |over| then over[last] else base[q]
  }

  function Heads(base: seq<Value>, over: seq<Value>, field: string): (r: seq<Value>)
    requires AllKeyed(base, field) && AllKeyed(over, field)
    ensures |r| == |base|
  {
    seq(|base|, q requires 0 <= q < |base| => Shown(base, over, q, field))
  }

  /** The overriding items whose key the base lacks. */
  function News(base: seq<Value>, over: seq<Value>, field: string): (r: seq<Value>)
    requires AllKeyed(base, field) && AllKeyed(over, field)
    ensures AllKeyed(r, field)
  {
    if over == [] then []
    else
      var last := over[|over| - 1];
      News(base, over[..|over| - 1], field) + if Has(base, Key(last, field), field) then [] else [last]
  }

  function Tail(base: seq<Value>, over: seq<Value>, field: string): (r: seq<Value>)
    requires AllKeyed(base, field) && AllKeyed(over, field)
    ensures UniquelyKeyed(r, field)
  {
    PutAll([], News(base, over, field), field)
  }

  /** The index of the loops, for a base of any keys. */
  ghost predicate IndexFinds(k: Keyed, base: seq<Value>, tail: seq<Value>, field: string)
    requires AllKeyed(base, field) && AllKeyed(tail, field)
  {
    && (forall key :: key in k.index <==> Has(base, key, field) || Occurs(tail, key, field))
    && (forall key :: Has(base, key, field) ==> k.index[key] == LastPosition(base, key, field))
    && (forall key :: Occurs(tail, key, field) && !Has(base, key, field) ==>
          k.index[key] == |base| + Position(tail, key, field))
  }

  lemma {:induction false} BaseOfAnyKeys(base: seq<Value>, field: string)
    requires AllKeyed(base, field)
    ensures AfterBase(base, field).result == base
    ensures IndexFinds(AfterBase(base, field), base, [], field)
  {
    if base != [] {
      var front, last := base[..|base| - 1], base[|base| - 1];
      assert base == front + [last];
      BaseOfAnyKeys(front, field);
      forall key
        ensures Has(base, key, field) <==> key == Key(last, field) || Has(front, key, field)
        ensures Has(base, key, field) ==>
                  LastPosition(base, key, field)
                  == if key == Key(last, field) then |front| else LastPosition(front, key, field)
      {
        LastPositionPush(front, last, key, field);
      }
    }
  }

  lemma ShownStep(base: seq<Value>, front: seq<Value>, x: Value, q: nat, field: string)
    requires AllKeyed(base, field) && AllKeyed(front, field) && IsItem(x, field) && q < |base|
    ensures AllKeyed(front + [x], field)
    ensures Shown(base, front + [x], q, field)
         == if LastPosition(base, Key(x, field), field) == q then x else Shown(base, front, q, field)
  {
    LastPositionPush(front, x, Key(base[q], field), field);
    if Key(base[q], field) == Key(x, field) {
      HasAt(base, q, field);
    }
  }

  lemma HeadsStep(base: seq<Value>, front: seq<Value>, x: Value, field: string)
    requires AllKeyed(base, field) && AllKeyed(front, field) && IsItem(x, field)
    ensures AllKeyed(front + [x], field)
    ensures var p := LastPosition(base, Key(x, field), field);
            Heads(base, front + [x], field)
            == if p < |base| then Heads(base, front, field)[p := x] else Heads(base, front, field)
  {
    hide Shown, LastPosition;
    forall q | 0 <= q < |base|
      ensures AllKeyed(front + [x], field)
      ensures Shown(base, front + [x], q, field)
           == if LastPosition(base, Key(x, field), field) == q then x else Shown(base, front, q, field)
    {
      ShownStep(base, front, x, q, field);
    }
  }

  lemma NewsStep(base: seq<Value>, front: seq<Value>, x: Value, field: string)
    requires AllKeyed(base, field) && AllKeyed(front, field) && IsItem(x, field)
    ensures AllKeyed(front + [x], field)
    ensures News(base, front + [x], field)
         == News(base, front, field) + if Has(base, Key(x, field), field) then [] else [x]
  {
    assert (front + [x])[..|front|] == front;
  }

  lemma TailStep(base: seq<Value>, front: seq<Value>, x: Value, field: string)
    requires AllKeyed(base, field) && AllKeyed(front, field) && IsItem(x, field)
    ensures AllKeyed(front + [x], field)
    ensures Tail(base, front + [x], field)
         == if Has(base, Key(x, field), field) then Tail(base, front, field)
            else Put(Tail(base, front, field), x, field)
  {
    hide News, PutAll, Put, Has;
    NewsStep(base, front, x, field);
    if Has(base, Key(x, field), field) {
      assert News(base, front, field) + [] == News(base, front, field);
    } else {
      PutAllStep([], News(base, front, field), x, field);
    }
  }

  lemma {:induction false} TailIsNew(base: seq<Value>, over: seq<Value>, key: Value, field: string)
    requires AllKeyed(base, field) && AllKeyed(over, field)
    ensures Occurs(Tail(base, over, field), key, field) ==> !Has(base, key, field)
  {
    hide News, PutAll, Put, Has, Position;
    if over == [] {
      NoTail(base, field);
    } else {
      var front, x := over[..|over| - 1], over[|over| - 1];
      assert over == front + [x];
      TailIsNew(base, front, key, field);
      TailStep(base, front, x, field);
      if !Has(base, Key(x, field), field) {
        PutKeepsKeys(Tail(base, front, field), x, key, field);
      }
    }
  }

  lemma NoTail(base: seq<Value>, field: string)
    requires AllKeyed(base, field)
    ensures Tail(base, [], field) == [] && forall key :: !Occurs([], key, field)
  {
  }

  /** Where a key stands after a put. */
  lemma PositionAfterPut(items: seq<Value>, x: Value, key: Value, field: string)
    requires UniquelyKeyed(items, field) && IsItem(x, field)
    ensures Occurs(Put(items, x, field), key, field) <==> Occurs(items, key, field) || key == Key(x, field)
    ensures Occurs(Put(items, x, field), key, field) ==>
              Position(Put(items, x, field), key, field)
              == if Occurs(items, key, field) then Position(items, key, field) else |items|
  {
    PutKeepsKeys(items, x, key, field);
    var r := Put(items, x, field);
    if Occurs(items, key, field) {
      OccursAt(r, Position(items, key, field), field);
    } else if key == Key(x, field) {
      OccursAt(r, |items|, field);
    }
  }

  lemma AddKnown(k: Keyed, base: seq<Value>, heads: seq<Value>, tail: seq<Value>, x: Value, field: string)
    requires AllKeyed(base, field) && |heads| == |base| && AllKeyed(tail, field) && IsItem(x, field)
    requires k.result == heads + tail && IndexFinds(k, base, tail, field) && Has(base, Key(x, field), field)
    ensures var p := LastPosition(base, Key(x, field), field);
            && AddOverride(k, x, field).result == heads[p := x] + tail
            && IndexFinds(AddOverride(k, x, field), base, tail, field)
  {
    hide LastPosition, Position, AllKeyed;
    var p := LastPosition(base, Key(x, field), field);
    assert k.index[Key(x, field)] == p;
    assert k.result[p := x] == heads[p := x] + tail;
  }

  lemma AddAgain(k: Keyed, base: seq<Value>, heads: seq<Value>, tail: seq<Value>, x: Value, field: string)
    requires AllKeyed(base, field) && AllKeyed(tail, field) && UniquelyKeyed(tail, field) && IsItem(x, field)
    requires |heads| == |base|
    requires k.result == heads + tail && IndexFinds(k, base, tail, field)
    requires !Has(base, Key(x, field), field) && Occurs(tail, Key(x, field), field)
    ensures AddOverride(k, x, field).result == heads + Put(tail, x, field) && AddOverride(k, x, field).index == k.index
  {
    hide LastPosition, Position, UniquelyKeyed, AllKeyed;
    var p := Position(tail, Key(x, field), field);
    assert k.index[Key(x, field)] == |base| + p;
    assert k.result[|base| + p := x] == heads + tail[p := x];
  }

  lemma AddNew(k: Keyed, base: seq<Value>, heads: seq<Value>, tail: seq<Value>, x: Value, field: string)
    requires AllKeyed(base, field) && AllKeyed(tail, field) && UniquelyKeyed(tail, field) && IsItem(x, field)
    requires |heads| == |base|
    requires k.result == heads + tail && IndexFinds(k, base, tail, field)
    requires !Has(base, Key(x, field), field) && !Occurs(tail, Key(x, field), field)
    ensures AddOverride(k, x, field).result == heads + Put(tail, x, field)
    ensures AddOverride(k, x, field).index == k.index[Key(x, field) := |base| + |tail|]
  {
    hide LastPosition, Position, UniquelyKeyed, AllKeyed;
    assert Key(x, field) !in k.index;
    assert k.result + [x] == heads + (tail + [x]);
  }

  lemma IndexStep(k: Keyed, k': Keyed, base: seq<Value>, tail: seq<Value>, x: Value, field: string)
    requires AllKeyed(base, field) && AllKeyed(tail, field) && UniquelyKeyed(tail, field) && IsItem(x, field)
    requires IndexFinds(k, base, tail, field) && !Has(base, Key(x, field), field)
    requires k'.index == if Occurs(tail, Key(x, field), field) then k.index
                         else k.index[Key(x, field) := |base| + |tail|]
    ensures IndexFinds(k', base, Put(tail, x, field), field)
  {
    hide LastPosition, Position, UniquelyKeyed, AllKeyed, Put, HasField;
    assert AllKeyed(Put(tail, x, field), field);
    forall other
      ensures Occurs(Put(tail, x, field), other, field) <==> Occurs(tail, other, field) || other == Key(x, field)
      ensures Occurs(Put(tail, x, field), other, field) ==>
                Position(Put(tail, x, field), other, field)
                == if Occurs(tail, other, field) then Position(tail, other, field) else |tail|
    {
      PositionAfterPut(tail, x, other, field);
    }
  }

  /** The invariant of the second loop, kept by one more overriding item. */
  lemma AddToShape(k: Keyed, base: seq<Value>, heads: seq<Value>, tail: seq<Value>, x: Value, field: string)
    requires AllKeyed(base, field) && AllKeyed(tail, field) && UniquelyKeyed(tail, field) && IsItem(x, field)
    requires |heads| == |base|
    requires k.result == heads + tail && IndexFinds(k, base, tail, field)
    ensures var p := LastPosition(base, Key(x, field), field);
            var tail' := if p < |base| then tail else Put(tail, x, field);
            && AddOverride(k, x, field).result == (if p < |base| then heads[p := x] else heads) + tail'
            && IndexFinds(AddOverride(k, x, field), base, tail', field)
  {
    hide LastPosition, Position, UniquelyKeyed, IndexFinds, AddOverride, Put;
    if Has(base, Key(x, field), field) {
      AddKnown(k, base, heads, tail, x, field);
    } else {
      if Occurs(tail, Key(x, field), field) {
        AddAgain(k, base, heads, tail, x, field);
      } else {
        AddNew(k, base, heads, tail, x, field);
      }
      IndexStep(k, AddOverride(k, x, field), base, tail, x, field);
    }
  }

  lemma {:induction false} ShapeOfLoops(base: seq<Value>, over: seq<Value>, field: string)
    requires AllKeyed(base, field) && AllKeyed(over, field)
    ensures AfterOverride(base, over, field).result == Heads(base, over, field) + Tail(base, over, field)
    ensures IndexFinds(AfterOverride(base, over, field), base, Tail(base, over, field), field)
  {
    hide IndexFinds, Heads, Tail, LastPosition, Position, UniquelyKeyed, Put, AddOverride;
    if over == [] {
      BaseOfAnyKeys(base, field);
      NoTail(base, field);
      NoHeads(base, field);
    } else {
      var front, x := over[..|over| - 1], over[|over| - 1];
      assert over == front + [x];
      ShapeOfLoops(base, front, field);
      HeadsStep(base, front, x, field);
      TailStep(base, front, x, field);
      TailUnique(base, front, field);
      AddToShape(AfterOverride(base, front, field), base, Heads(base, front, field), Tail(base, front, field), x,
                 field);
    }
  }

  lemma TailUnique(base: seq<Value>, over: seq<Value>, field: string)
    requires AllKeyed(base, field) && AllKeyed(over, field)
    ensures UniquelyKeyed(Tail(base, over, field), field) && AllKeyed(Tail(base, over, field), field)
  {
  }

  lemma NoHeads(base: seq<Value>, field: string)
    requires AllKeyed(base, field)
    ensures Heads(base, [], field) == base && base + [] == base
  {
  }

  /** What the loops compute, whatever keys recur: the base, each key's last place showing the last
      overriding item of that key, and behind it the items of new keys, each put in turn. */
  lemma MergeShape(base: seq<Value>, over: seq<Value>, field: string)
    requires AllKeyed(base, field) && AllKeyed(over, field)
    ensures MergeByKey(base, over, field) == Some(Heads(base, over, field) + Tail(base, over, field))
  {
    ShapeOfLoops(base, over, field);
  }

  lemma {:induction false} PutAllNothing(items: seq<Value>, field: string)
    requires UniquelyKeyed(items, field)
    ensures PutAll([], items, field) == items
  {
    if items != [] {
      var front, last := items[..|items| - 1], items[|items| - 1];
      assert items == front + [last];
      PutAllNothing(front, field);
      assert forall i :: 0 <= i < |front| ==> Key(front[i], field) != Key(last, field);
      PutNew(front, last, field);
    }
  }

  /** The new keys, each with its last item. */
  lemma {:induction false} TailHolds(base: seq<Value>, over: seq<Value>, key: Value, field: string)
    requires AllKeyed(base, field) && AllKeyed(over, field)
    ensures var tail := Tail(base, over, field);
            && (Occurs(tail, key, field) <==> Has(over, key, field) && !Has(base, key, field))
            && (Occurs(tail, key, field) ==>
                  tail[Position(tail, key, field)] == over[LastPosition(over, key, field)])
  {
    hide Tail, LastPosition, Position, Put;
    if over == [] {
      NoTail(base, field);
    } else {
      var front, x := over[..|over| - 1], over[|over| - 1];
      assert over == front + [x];
      TailHolds(base, front, key, field);
      TailStep(base, front, x, field);
      LastPositionPush(front, x, key, field);
      if !Has(base, Key(x, field), field) {
        PutHolds(Tail(base, front, field), x, key, field);
      }
    }
  }

  lemma PutHolds(items: seq<Value>, x: Value, key: Value, field: string)
    requires UniquelyKeyed(items, field) && IsItem(x, field)
    ensures var r := Put(items, x, field);
            && (Occurs(r, key, field) <==> Occurs(items, key, field) || key == Key(x, field))
            && (Occurs(r, key, field) ==>
                  r[Position(r, key, field)]
                  == if key == Key(x, field) then x else items[Position(items, key, field)])
  {
    PositionAfterPut(items, x, key, field);
  }

  // When the merge is the overriding array itself.

  /** The overriding array goes through the keys of the base in order and then through new ones, each once;
      where a key of the base recurs later, the earlier item stays as it was. */
  predicate Extends(over: seq<Value>, base: seq<Value>, field: string)
    requires AllKeyed(base, field) && AllKeyed(over, field)
  {
    && |base| <= |over|
    && (forall i :: 0 <= i < |base| ==> Key(over[i], field) == Key(base[i], field))
    && (forall i, j :: 0 <= i < j < |over| && |base| <= j ==> Key(over[i], field) != Key(over[j], field))
    && (forall i, j :: 0 <= i < j < |base| && Key(base[i], field) == Key(base[j], field) ==> over[i] == base[i])
  }

  lemma ExtendedKeys(base: seq<Value>, over: seq<Value>, i: nat, field: string)
    requires AllKeyed(base, field) && AllKeyed(over, field) && Extends(over, base, field) && i < |over|
    ensures Has(base, Key(over[i], field), field) <==> i < |base|
  {
    if i < |base| {
      HasAt(base, i, field);
    } else {
      forall k | 0 <= k < |base| ensures Key(base[k], field) != Key(over[i], field) {
        assert Key(over[k], field) != Key(over[i], field);
      }
    }
  }

  lemma {:induction false} NewsOfExtension(base: seq<Value>, over: seq<Value>, n: nat, field: string)
    requires AllKeyed(base, field) && AllKeyed(over, field) && Extends(over, base, field) && n <= |over|
    ensures News(base, over[..n], field) == if n <= |base| then [] else over[|base|..n]
  {
    hide Extends, Has, News;
    if n > 0 {
      assert over[..n] == over[..n - 1] + [over[n - 1]];
      NewsOfExtension(base, over, n - 1, field);
      NewsStep(base, over[..n - 1], over[n - 1], field);
      ExtendedKeys(base, over, n - 1, field);
    } else {
      NoNews(base, field);
    }
  }

  lemma NoNews(base: seq<Value>, field: string)
    requires AllKeyed(base, field)
    ensures News(base, [], field) == []
  {
  }

  lemma ShownOfExtension(base: seq<Value>, over: seq<Value>, q: nat, field: string)
    requires AllKeyed(base, field) && AllKeyed(over, field) && Extends(over, base, field) && q < |base|
    ensures Shown(base, over, q, field) == over[q]
  {
    var key := Key(base[q], field);
    var last, p := LastPosition(over, key, field), LastPosition(base, key, field);
    HasAt(base, q, field);
    HasAt(over, q, field);
    if p == q {
      assert Key(over[last], field) == Key(over[q], field);
    }
  }

  lemma ExtensionIsResult(base: seq<Value>, over: seq<Value>, field: string)
    requires AllKeyed(base, field) && AllKeyed(over, field) && Extends(over, base, field)
    ensures Heads(base, over, field) + Tail(base, over, field) == over
  {
    hide Shown, PutAll, News;
    forall q | 0 <= q < |base| ensures Heads(base, over, field)[q] == over[q] {
      ShownOfExtension(base, over, q, field);
    }
    NewsOfExtension(base, over, |over|, field);
    assert over[..|over|] == over;
    assert News(base, over, field) == over[|base|..];
    PutAllNothing(over[|base|..], field);
  }

  lemma ResultIsExtension(base: seq<Value>, over: seq<Value>, field: string)
    requires AllKeyed(base, field) && AllKeyed(over, field)
    requires Heads(base, over, field) + Tail(base, over, field) == over
    ensures Extends(over, base, field)
  {
    hide News, PutAll;
    var heads, tail := Heads(base, over, field), Tail(base, over, field);
    forall q | 0 <= q < |base|
      ensures over[q] == heads[q] && Key(over[q], field) == Key(base[q], field)
    {
      assert heads[q] == Shown(base, over, q, field);
    }
    assert over[|base|..] == tail;
    forall i, j | 0 <= i < j < |over| && |base| <= j ensures Key(over[i], field) != Key(over[j], field) {
      assert over[j] == tail[j - |base|];
      if i < |base| {
        TailIsNew(base, over, Key(over[j], field), field);
        OccursAt(tail, j - |base|, field);
        HasAt(base, i, field);
      } else {
        assert over[i] == tail[i - |base|];
      }
    }
    forall i, j | 0 <= i < j < |base| && Key(base[i], field) == Key(base[j], field) ensures over[i] == base[i] {
      HasAt(base, j, field);
      assert heads[i] == Shown(base, over, i, field);
    }
  }

  // When merging on one field is merging on another.

  /** The item finds the same place by both fields if it is the last of its key of `other`; an earlier one
      repeats the base's item. */
  predicate SamePlace(base: seq<Value>, over: seq<Value>, j: nat, field: string, other: string)
    requires UniquelyKeyed(base, field) && UniquelyKeyed(over, field) && AllKeyed(base, other) && AllKeyed(over, other)
    requires j < |over|
  {
    var p := Position(base, Key(over[j], field), field);
    if LastPosition(over, Key(over[j], other), other) == j
    then LastPosition(base, Key(over[j], other), other) == p
    else p < |base| && base[p] == over[j]
  }

  predicate SamePlaces(base: seq<Value>, over: seq<Value>, field: string, other: string)
    requires UniquelyKeyed(base, field) && UniquelyKeyed(over, field) && AllKeyed(base, other) && AllKeyed(over, other)
  {
    forall j :: 0 <= j < |over| ==> SamePlace(base, over, j, field, other)
  }

  lemma LastIsOnly(items: seq<Value>, i: nat, field: string)
    requires UniquelyKeyed(items, field) && i < |items|
    ensures LastPosition(items, Key(items[i], field), field) == i
  {
    HasAt(items, i, field);
  }

  lemma OnlyPlace(items: seq<Value>, key: Value, field: string)
    requires UniquelyKeyed(items, field)
    ensures Position(items, key, field) == LastPosition(items, key, field)
  {
    if Position(items, key, field) < |items| {
      LastIsOnly(items, Position(items, key, field), field);
    }
  }

  lemma SameShown(base: seq<Value>, over: seq<Value>, q: nat, field: string, other: string)
    requires UniquelyKeyed(base, field) && UniquelyKeyed(over, field) && AllKeyed(base, other) && AllKeyed(over, other)
    requires SamePlaces(base, over, field, other) && q < |base|
    ensures Shown(base, over, q, other) == Shown(base, over, q, field)
  {
    LastIsOnly(base, q, field);
    var j := LastPosition(over, Key(base[q], field), field);
    var l := LastPosition(over, Key(base[q], other), other);
    if j < |over| {
      OnlyPlace(base, Key(over[j], field), field);
      assert Position(base, Key(over[j], field), field) == q;
      assert SamePlace(base, over, j, field, other);
      HasAt(over, j, other);
    }
    if l < |over| && LastPosition(base, Key(base[q], other), other) == q {
      OnlyPlace(base, Key(over[l], field), field);
      assert LastPosition(over, Key(over[l], other), other) == l;
      assert SamePlace(base, over, l, field, other);
      assert Key(over[l], field) == Key(base[q], field);
      LastIsOnly(over, l, field);
    }
  }

  lemma PlaceAt(base: seq<Value>, over: seq<Value>, j: nat, field: string, other: string)
    requires UniquelyKeyed(base, field) && UniquelyKeyed(over, field) && AllKeyed(base, other) && AllKeyed(over, other)
    requires SamePlaces(base, over, field, other) && j < |over|
    ensures SamePlace(base, over, j, field, other)
    ensures AllKeyed(base, field) && AllKeyed(over, field)
  {
  }

  lemma SameNew(base: seq<Value>, over: seq<Value>, j: nat, field: string, other: string)
    requires UniquelyKeyed(base, field) && UniquelyKeyed(over, field) && AllKeyed(base, other) && AllKeyed(over, other)
    requires SamePlaces(base, over, field, other) && j < |over|
    ensures Has(base, Key(over[j], other), other) <==> Has(base, Key(over[j], field), field)
    ensures !Has(base, Key(over[j], other), other) ==> LastPosition(over, Key(over[j], other), other) == j
  {
    hide SamePlaces, UniquelyKeyed, Position, LastPosition;
    PlaceAt(base, over, j, field, other);
    OnlyPlace(base, Key(over[j], field), field);
    if LastPosition(over, Key(over[j], other), other) != j {
      HasAt(base, Position(base, Key(over[j], field), field), other);
    }
  }

  lemma {:induction false} NewsFrom(base: seq<Value>, over: seq<Value>, n: nat, x: Value, field: string)
    returns (j: nat)
    requires AllKeyed(base, field) && AllKeyed(over, field) && n <= |over| && x in News(base, over[..n], field)
    ensures j < n && over[j] == x && IsItem(x, field) && !Has(base, Key(x, field), field)
  {
    var last, front := over[n - 1], over[..n - 1];
    assert over[..n] == front + [last];
    NewsStep(base, front, last, field);
    if x in News(base, front, field) {
      j := NewsFrom(base, over, n - 1, x, field);
    } else {
      j := n - 1;
    }
  }

  /** New items whose keys differ are a uniquely keyed array. */
  lemma {:induction false} NewsUnique(base: seq<Value>, over: seq<Value>, n: nat, field: string)
    requires AllKeyed(base, field) && AllKeyed(over, field) && n <= |over|
    requires forall i, j :: 0 <= i < j < |over| && !Has(base, Key(over[j], field), field) ==>
               Key(over[i], field) != Key(over[j], field)
    ensures UniquelyKeyed(News(base, over[..n], field), field)
  {
    hide LastPosition, Has;
    if n > 0 {
      var x, front := over[n - 1], over[..n - 1];
      assert over[..n] == front + [x];
      NewsUnique(base, over, n - 1, field);
      NewsStep(base, front, x, field);
      if !Has(base, Key(x, field), field) {
        var news := News(base, front, field);
        forall i | 0 <= i < |news| ensures Key(news[i], field) != Key(x, field) {
          var j := NewsFrom(base, over, n - 1, news[i], field);
        }
      }
    }
  }

  lemma {:induction false} SameNews(base: seq<Value>, over: seq<Value>, n: nat, field: string, other: string)
    requires UniquelyKeyed(base, field) && UniquelyKeyed(over, field) && AllKeyed(base, other) && AllKeyed(over, other)
    requires SamePlaces(base, over, field, other) && n <= |over|
    ensures News(base, over[..n], other) == News(base, over[..n], field)
  {
    hide SamePlaces, LastPosition, Has;
    if n > 0 {
      var x, front := over[n - 1], over[..n - 1];
      assert over[..n] == front + [x];
      SameNews(base, over, n - 1, field, other);
      SameNew(base, over, n - 1, field, other);
      NewsStep(base, front, x, field);
      NewsStep(base, front, x, other);
    }
  }

  lemma SamePlacesSameResult(base: seq<Value>, over: seq<Value>, field: string, other: string)
    requires UniquelyKeyed(base, field) && UniquelyKeyed(over, field) && AllKeyed(base, other) && AllKeyed(over, other)
    requires SamePlaces(base, over, field, other)
    ensures Heads(base, over, other) == Heads(base, over, field) && Tail(base, over, other) == Tail(base, over, field)
  {
    hide Shown, SamePlaces, News;
    forall q | 0 <= q < |base| ensures Heads(base, over, other)[q] == Heads(base, over, field)[q] {
      SameShown(base, over, q, field, other);
    }
    assert over[..|over|] == over;
    SameNews(base, over, |over|, field, other);
    NewsUnique(base, over, |over|, field);
    forall i, j | 0 <= i < j < |over| && !Has(base, Key(over[j], other), other)
      ensures Key(over[i], other) != Key(over[j], other)
    {
      SameNew(base, over, j, field, other);
      SameNew(base, over, i, field, other);
    }
    NewsUnique(base, over, |over|, other);
    PutAllNothing(News(base, over, field), field);
    PutAllNothing(News(base, over, other), other);
  }

  lemma ShownAtPlace(base: seq<Value>, over: seq<Value>, j: nat, field: string)
    requires UniquelyKeyed(base, field) && UniquelyKeyed(over, field) && j < |over|
    requires Position(base, Key(over[j], field), field) < |base|
    ensures Heads(base, over, field)[Position(base, Key(over[j], field), field)] == over[j]
  {
    OnlyPlace(base, Key(over[j], field), field);
    LastIsOnly(over, j, field);
  }

  lemma KnownSamePlace(base: seq<Value>, over: seq<Value>, j: nat, field: string, other: string)
    requires UniquelyKeyed(base, field) && UniquelyKeyed(over, field) && AllKeyed(base, other) && AllKeyed(over, other)
    requires Heads(base, over, other) == Heads(base, over, field) && j < |over|
    requires Position(base, Key(over[j], field), field) < |base|
    ensures SamePlace(base, over, j, field, other)
  {
    var y := over[j];
    var p, s := Position(base, Key(y, field), field), LastPosition(base, Key(y, other), other);
    ShownAtPlace(base, over, j, field);
    assert Heads(base, over, other)[p] == Shown(base, over, p, other) == y;
    HasAt(over, j, other);
    if LastPosition(over, Key(y, other), other) == j && s < |base| {
      assert Heads(base, over, other)[s] == Shown(base, over, s, other) == y;
      HeadsKeys(base, over, s, field);
      HeadsKeys(base, over, p, field);
    } else if LastPosition(over, Key(y, other), other) == j {
      HeadsKeys(base, over, p, other);
      HasAt(base, p, other);
    }
  }

  lemma HeadsKeys(base: seq<Value>, over: seq<Value>, q: nat, field: string)
    requires AllKeyed(base, field) && AllKeyed(over, field) && q < |base|
    ensures IsItem(Heads(base, over, field)[q], field) && Key(Heads(base, over, field)[q], field) == Key(base[q], field)
  {
    assert Heads(base, over, field)[q] == Shown(base, over, q, field);
  }

  lemma NewSamePlace(base: seq<Value>, over: seq<Value>, j: nat, field: string, other: string)
    requires UniquelyKeyed(base, field) && UniquelyKeyed(over, field) && AllKeyed(base, other) && AllKeyed(over, other)
    requires Tail(base, over, other) == Tail(base, over, field) && j < |over|
    requires Position(base, Key(over[j], field), field) == |base|
    ensures SamePlace(base, over, j, field, other)
  {
    hide Tail;
    var y, tail := over[j], Tail(base, over, field);
    TailUnique(base, over, field);
    TailUnique(base, over, other);
    OnlyPlace(base, Key(y, field), field);
    LastIsOnly(over, j, field);
    TailHolds(base, over, Key(y, field), field);
    var i := Position(tail, Key(y, field), field);
    assert tail[i] == y;
    OccursAt(tail, i, other);
    TailHolds(base, over, Key(y, other), other);
    var l := LastPosition(over, Key(y, other), other);
    assert over[l] == y && Key(over[l], field) == Key(over[j], field);
  }

  /** Merging on `other` gives what merging on `field` gives, exactly if the items find the same places. */
  lemma SameResultIff(base: seq<Value>, over: seq<Value>, field: string, other: string)
    requires UniquelyKeyed(base, field) && UniquelyKeyed(over, field) && AllKeyed(base, other) && AllKeyed(over, other)
    ensures MergeByKey(base, over, other) == Some(PutAll(base, over, field)) <==> SamePlaces(base, over, field, other)
  {
    hide SamePlace, Heads, Tail, PutAll, MergeByKey;
    MergeShape(base, over, other);
    MergeShape(base, over, field);
    MergeIsPutAll(base, over, field);
    var h, t := Heads(base, over, other), Tail(base, over, other);
    var g, u := Heads(base, over, field), Tail(base, over, field);
    if h + t == g + u {
      assert h == (h + t)[..|base|] == g && t == (h + t)[|base|..] == u;
      forall j | 0 <= j < |over| ensures SamePlace(base, over, j, field, other) {
        if Position(base, Key(over[j], field), field) < |base| {
          KnownSamePlace(base, over, j, field, other);
        } else {
          NewSamePlace(base, over, j, field, other);
        }
      }
    } else if SamePlaces(base, over, field, other) {
      SamePlacesSameResult(base, over, field, other);
    }
  }
}
