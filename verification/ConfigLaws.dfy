/** When the layered merge may be bracketed either way. All conditions speak of the layers alone. */
module ConfigLaws {
  import opened Prelude
  import opened ConfigMerge
  import opened KeyedArrays

  /** An array keyed on one field for every merge it can take part in: an array keyed on `id` shows an
      item without a `code`, which `_detect_keyed_merge_field` prefers. */
  predicate KeyedOn(items: seq<Value>, field: string) {
    UniquelyKeyed(items, field) &&
    (field == "code" || (field == "id" && (items == [] || !AllHave(items, "code"))))
  }

  lemma MergedStaysKeyed(base: seq<Value>, over: seq<Value>, field: string)
    requires KeyedOn(base, field) && KeyedOn(over, field)
    ensures KeyedOn(PutAll(base, over, field), field)
  {
    var r := PutAll(base, over, field);
    if field == "id" && over != [] {
      var i :| 0 <= i < |over| && !HasField(over[i], "code");
      PutAllKeepsOverride(base, over, i, field);
      var j :| 0 <= j < |r| && r[j] == over[i];
      assert !AllHave(r, "code");
    }
  }

  lemma KeyedFieldIsFound(base: seq<Value>, over: seq<Value>, field: string)
    requires KeyedOn(base, field) && KeyedOn(over, field) && base + over != []
    ensures DetectField(base + over) == Some(field)
  {
    var all := base + over;
    assert AllHave(all, field);
    if field == "id" {
      if base != [] {
        var i :| 0 <= i < |base| && !HasField(base[i], "code");
        assert all[i] == base[i];
      } else {
        var i :| 0 <= i < |over| && !HasField(over[i], "code");
        assert all[|base| + i] == over[i];
      }
      assert !AllHave(all, "code");
    }
  }

  /** Merging these arrays is merging them on `id`: that is the field detected, or it is `code`, and by
      their codes the items find the places they have by their ids. */
  predicate MergesOnId(base: seq<Value>, over: seq<Value>) {
    && UniquelyKeyed(base, "id") && AllKeyed(over, "id")
    && (|| base + over == []
        || DetectField(base + over) == Some("id")
        || (&& UniquelyKeyed(over, "id") && AllKeyed(base, "code") && AllKeyed(over, "code")
            && SamePlaces(base, over, "id", "code")))
  }

  lemma CodesFound(base: seq<Value>, over: seq<Value>)
    requires base + over != []
    ensures AllKeyed(base, "code") && AllKeyed(over, "code") <==>
            DetectField(base + over) == Some("code") && AllHashable(base, "code") && AllHashable(over, "code")
    ensures AllKeyed(base, "id") && AllKeyed(over, "id") ==> DetectField(base + over) in {Some("code"), Some("id")}
  {
    var all := base + over;
    assert forall i :: 0 <= i < |base| ==> all[i] == base[i];
    assert forall i :: 0 <= i < |over| ==> all[|base| + i] == over[i];
    if DetectField(all) == Some("code") {
      assert AllHave(all, "code");
    }
  }

  /** The condition is exact. */
  lemma MergesOnIdIff(base: seq<Value>, over: seq<Value>)
    requires UniquelyKeyed(base, "id") && UniquelyKeyed(over, "id")
    ensures MergeArrays(base, over) == Some(PutAll(base, over, "id")) <==> MergesOnId(base, over)
  {
    hide SamePlaces, UniquelyKeyed, MergeByKey, DetectField;
    if base + over == [] {
      NothingToMerge(base, over);
    } else {
      CodesFound(base, over);
      UniqueIsKeyed(base, "id");
      UniqueIsKeyed(over, "id");
      if DetectField(base + over) == Some("id") {
        MergeIsPutAll(base, over, "id");
      } else if AllKeyed(base, "code") && AllKeyed(over, "code") {
        SameResultIff(base, over, "id", "code");
      } else {
        NotHashable(base, over);
      }
    }
  }

  lemma NothingToMerge(base: seq<Value>, over: seq<Value>)
    requires base + over == []
    ensures MergeArrays(base, over) == Some([]) && base == [] && over == []
  {
  }

  lemma UniqueIsKeyed(items: seq<Value>, field: string)
    requires UniquelyKeyed(items, field)
    ensures AllKeyed(items, field)
  {
  }

  lemma NotHashable(base: seq<Value>, over: seq<Value>)
    requires !(AllHashable(base, "code") && AllHashable(over, "code"))
    ensures MergeByKey(base, over, "code").None?
  {
  }

  lemma MergesOnIdIsPutAll(base: seq<Value>, over: seq<Value>)
    requires MergesOnId(base, over)
    ensures AllKeyed(base, "id") && AllKeyed(over, "id")
    ensures MergeArrays(base, over) == Some(PutAll(base, over, "id"))
  {
    hide SamePlaces;
    if base + over == [] {
      NothingToMerge(base, over);
    } else if DetectField(base + over) == Some("id") {
      MergeIsPutAll(base, over, "id");
    } else {
      MergesOnIdIff(base, over);
    }
  }

  /** All four merges of the two bracketings are on `id`. */
  predicate AllOnId(a: seq<Value>, b: seq<Value>, c: seq<Value>) {
    && MergesOnId(a, b) && MergesOnId(b, c)
    && MergesOnId(PutAll(a, b, "id"), c) && MergesOnId(a, PutAll(b, c, "id"))
  }

  /** Keys may recur in the last array. */
  predicate AllOnCode(a: seq<Value>, b: seq<Value>, c: seq<Value>) {
    UniquelyKeyed(a, "code") && UniquelyKeyed(b, "code") && AllKeyed(c, "code")
  }

  /** Arrays that agree on how to merge: neither neighbouring pair is keyed, or every merge is on the same
      field. */
  predicate ArraysFit(a: seq<Value>, b: seq<Value>, c: seq<Value>) {
    || (DetectField(a + b).None? && DetectField(b + c).None?)
    || AllOnCode(a, b, c)
    || AllOnId(a, b, c)
  }

  lemma KeyedOnIdMerges(base: seq<Value>, over: seq<Value>)
    requires KeyedOn(base, "id") && KeyedOn(over, "id")
    ensures MergesOnId(base, over) && KeyedOn(PutAll(base, over, "id"), "id")
  {
    hide UniquelyKeyed, PutAll, SamePlaces;
    MergedStaysKeyed(base, over, "id");
    UniqueIsKeyed(over, "id");
    if base + over != [] {
      KeyedFieldIsFound(base, over, "id");
    }
  }

  /** Arrays that are keyed on one field for every merge fit. */
  lemma KeyedArraysFit(a: seq<Value>, b: seq<Value>, c: seq<Value>, field: string)
    requires KeyedOn(a, field) && KeyedOn(b, field) && KeyedOn(c, field)
    ensures ArraysFit(a, b, c)
  {
    hide PutAll, MergesOnId, DetectField;
    if field == "id" {
      KeyedOnIdMerges(a, b);
      KeyedOnIdMerges(b, c);
      KeyedOnIdMerges(PutAll(a, b, "id"), c);
      KeyedOnIdMerges(a, PutAll(b, c, "id"));
    }
  }

  lemma UnkeyedStaysUnkeyed(a: seq<Value>, b: seq<Value>, c: seq<Value>)
    requires DetectField(a + b).None? && DetectField(b + c).None?
    ensures DetectField(a + b + c).None?
  {
    var all := a + b + c;
    if a + b == [] {
      assert all == b + c;
    } else {
      assert forall i :: 0 <= i < |a + b| ==> all[i] == (a + b)[i];
      assert AllHave(all, "code") ==> AllHave(a + b, "code");
      assert AllHave(all, "id") ==> AllHave(a + b, "id");
    }
  }

  lemma CodedMerge(base: seq<Value>, over: seq<Value>)
    requires UniquelyKeyed(base, "code") && AllKeyed(over, "code")
    ensures MergeArrays(base, over) == Some(PutAll(base, over, "code"))
  {
    hide UniquelyKeyed, MergeByKey, DetectField;
    UniqueIsKeyed(base, "code");
    if base + over == [] {
      NothingToMerge(base, over);
    } else {
      CodesFound(base, over);
      MergeIsPutAll(base, over, "code");
    }
  }

  lemma ArraysAssociate(a: seq<Value>, b: seq<Value>, c: seq<Value>)
    requires ArraysFit(a, b, c)
    ensures MergeArrays(a, b).Some? && MergeArrays(b, c).Some?
    ensures MergeArrays(MergeArrays(a, b).value, c) == MergeArrays(a, MergeArrays(b, c).value)
    ensures MergeArrays(a, MergeArrays(b, c).value).Some?
    ensures DetectField(a + b).None? && DetectField(b + c).None? ==>
              MergeArrays(a, MergeArrays(b, c).value) == Some(a + b + c)
  {
    hide UniquelyKeyed, PutAll, MergesOnId;
    if DetectField(a + b).None? && DetectField(b + c).None? {
      UnkeyedStaysUnkeyed(a, b, c);
      assert a + (b + c) == a + b + c;
    } else if AllOnCode(a, b, c) {
      CodedArraysAssociate(a, b, c);
    } else {
      IdArraysAssociate(a, b, c);
    }
  }

  lemma CodedArraysAssociate(a: seq<Value>, b: seq<Value>, c: seq<Value>)
    requires AllOnCode(a, b, c)
    ensures MergeArrays(a, b).Some? && MergeArrays(b, c).Some?
    ensures MergeArrays(MergeArrays(a, b).value, c) == MergeArrays(a, MergeArrays(b, c).value)
    ensures MergeArrays(a, MergeArrays(b, c).value).Some?
  {
    hide PutAll, MergeArrays;
    UniqueIsKeyed(b, "code");
    CodedMerge(a, b);
    CodedMerge(b, c);
    CodedMerge(PutAll(a, b, "code"), c);
    CodedMerge(a, PutAll(b, c, "code"));
    PutAllAssociates(a, b, c, "code");
  }

  lemma IdArraysAssociate(a: seq<Value>, b: seq<Value>, c: seq<Value>)
    requires AllOnId(a, b, c)
    ensures MergeArrays(a, b).Some? && MergeArrays(b, c).Some?
    ensures MergeArrays(MergeArrays(a, b).value, c) == MergeArrays(a, MergeArrays(b, c).value)
    ensures MergeArrays(a, MergeArrays(b, c).value).Some?
  {
    hide PutAll, MergeArrays, SamePlaces;
    MergesOnIdIsPutAll(a, b);
    MergesOnIdIsPutAll(b, c);
    MergesOnIdIsPutAll(PutAll(a, b, "id"), c);
    MergesOnIdIsPutAll(a, PutAll(b, c, "id"));
    PutAllAssociates(a, b, c, "id");
  }

  lemma CodesStayHidden(a: seq<Value>, b: seq<Value>, c: seq<Value>)
    requires UniquelyKeyed(a, "id") && UniquelyKeyed(b, "id") && AllKeyed(c, "id")
    requires DetectField(b + c) == Some("id")
    ensures DetectField(PutAll(a, b, "id") + c) == Some("id")
  {
    var ab := PutAll(a, b, "id");
    var all := ab + c;
    var i :| 0 <= i < |b + c| && !HasField((b + c)[i], "code");
    var j: nat;
    if i < |b| {
      PutAllKeepsOverride(a, b, i, "id");
      j :| 0 <= j < |ab| && ab[j] == b[i];
    } else {
      j := |ab| + i - |b|;
    }
    assert !HasField(all[j], "code");
    assert forall k :: 0 <= k < |all| ==> HasField(all[k], "id");
  }

  /** Arrays whose neighbours are merged on `id`: the bracketings agree exactly if the last merge from
      above finds an item without a code, or finds by the codes the places the ids have. */
  lemma IdArraysIff(a: seq<Value>, b: seq<Value>, c: seq<Value>)
    requires UniquelyKeyed(a, "id") && UniquelyKeyed(b, "id") && AllKeyed(c, "id")
    requires DetectField(a + b) == Some("id") && DetectField(b + c) == Some("id")
    ensures MergeArrays(a, b).Some? && MergeArrays(b, c).Some?
    ensures var y := PutAll(b, c, "id");
            MergeArrays(MergeArrays(a, b).value, c) == MergeArrays(a, MergeArrays(b, c).value)
            <==> || !AllHave(a + y, "code")
                 || (AllKeyed(a, "code") && AllKeyed(y, "code") && SamePlaces(a, y, "id", "code"))
  {
    hide PutAll, DetectField, MergeByKey, HasField, SamePlaces, AllHave;
    MergeIsPutAll(a, b, "id");
    MergeIsPutAll(b, c, "id");
    CodesStayHidden(a, b, c);
    MergeIsPutAll(PutAll(a, b, "id"), c, "id");
    MergesOnIdIff(a, PutAll(b, c, "id"));
    SomethingPut(b, c);
    IdsFound(a, PutAll(b, c, "id"));
    PutAllAssociates(a, b, c, "id");
  }

  lemma IdsFound(base: seq<Value>, over: seq<Value>)
    requires AllKeyed(base, "id") && AllKeyed(over, "id") && base + over != []
    ensures DetectField(base + over) == Some("id") <==> !AllHave(base + over, "code")
  {
    assert AllHave(base + over, "id");
  }

  lemma SomethingPut(b: seq<Value>, c: seq<Value>)
    requires UniquelyKeyed(b, "id") && AllKeyed(c, "id") && DetectField(b + c) == Some("id")
    ensures PutAll(b, c, "id") != []
  {
  }

  // Whole layers.

  /** The merge of `a` and `b`, unless one of them already failed. */
  function Then(a: Option<Value>, b: Option<Value>): Option<Value> {
    if a.Some? && b.Some? then DeepMerge(a.value, b.value) else None
  }

  /** At every path all three layers reach, a table or an array of the outer layers is not interrupted
      by another kind in the middle one, and arrays agree on how to merge. */
  predicate Fits(a: Value, b: Value, c: Value)
    decreases a
  {
    if a.Table? && c.Table? then
      b.Table? &&
      forall k :: k in a.entries && k in b.entries && k in c.entries ==>
        Fits(a.entries[k], b.entries[k], c.entries[k])
    else if a.Arr? && c.Arr? then b.Arr? && ArraysFit(a.items, b.items, c.items)
    else true
  }

  /** What merging two tables does to one key. */
  function EntryMerge(a: map<string, Value>, b: map<string, Value>, k: string): Option<Value>
    requires k in a || k in b
  {
    if k in a && k in b then DeepMerge(a[k], b[k]) else if k in a then Some(a[k]) else Some(b[k])
  }

  lemma TableMerge(a: map<string, Value>, b: map<string, Value>)
    ensures DeepMerge(Table(a), Table(b)).None? <==>
            exists k :: (k in a || k in b) && EntryMerge(a, b, k).None?
    ensures DeepMerge(Table(a), Table(b)).Some? ==>
            && DeepMerge(Table(a), Table(b)).value.Table?
            && DeepMerge(Table(a), Table(b)).value.entries.Keys == a.Keys + b.Keys
            && forall k :: k in a || k in b ==>
                 EntryMerge(a, b, k) == Some(DeepMerge(Table(a), Table(b)).value.entries[k])
  {
    if DeepMerge(Table(a), Table(b)).None? {
      var k :| k in a && k in b && DeepMerge(a[k], b[k]).None?;
      assert EntryMerge(a, b, k).None?;
    }
  }

  lemma SameEntriesSameTable(a: map<string, Value>, b: map<string, Value>, c: map<string, Value>, d: map<string, Value>)
    requires a.Keys + b.Keys == c.Keys + d.Keys
    requires forall k :: k in a.Keys + b.Keys ==> (k in a || k in b) && (k in c || k in d)
    requires forall k :: k in a.Keys + b.Keys ==> EntryMerge(a, b, k) == EntryMerge(c, d, k)
    ensures DeepMerge(Table(a), Table(b)) == DeepMerge(Table(c), Table(d))
  {
    TableMerge(a, b);
    TableMerge(c, d);
    var left, right := DeepMerge(Table(a), Table(b)), DeepMerge(Table(c), Table(d));
    if left.None? {
      var k :| (k in a || k in b) && EntryMerge(a, b, k).None?;
      assert k in a.Keys + b.Keys;
    } else {
      assert right.Some?;
      forall k | k in a.Keys + b.Keys
        ensures left.value.entries[k] == right.value.entries[k]
      {
        assert EntryMerge(a, b, k) == EntryMerge(c, d, k);
      }
      assert left.value.entries == right.value.entries;
    }
  }

  lemma TablesAssociate(a: map<string, Value>, b: map<string, Value>, c: map<string, Value>)
    requires DeepMerge(Table(a), Table(b)).Some?
    requires forall k :: k in a && k in b && k in c ==>
      Then(DeepMerge(a[k], b[k]), Some(c[k])) == Then(Some(a[k]), DeepMerge(b[k], c[k]))
    ensures Then(DeepMerge(Table(a), Table(b)), Some(Table(c)))
         == Then(Some(Table(a)), DeepMerge(Table(b), Table(c)))
  {
    TableMerge(a, b);
    TableMerge(b, c);
    var ab := DeepMerge(Table(a), Table(b)).value.entries;
    var bc := DeepMerge(Table(b), Table(c));
    if bc.None? {
      var k :| (k in b || k in c) && EntryMerge(b, c, k).None?;
      assert EntryMerge(a, b, k) == Some(ab[k]);
      assert EntryMerge(ab, c, k).None?;
      TableMerge(ab, c);
    } else {
      var right := bc.value.entries;
      forall k | k in ab.Keys + c.Keys
        ensures EntryMerge(ab, c, k) == EntryMerge(a, right, k)
      {
        if k in a || k in b {
          assert EntryMerge(a, b, k) == Some(ab[k]);
        }
        if k in b || k in c {
          assert EntryMerge(b, c, k) == Some(right[k]);
        }
      }
      SameEntriesSameTable(ab, c, a, right);
    }
  }

  /** On layers that fit, the bracketing does not matter, not even for when the merge fails. */
  lemma {:induction false} MergeAssociates(a: Value, b: Value, c: Value)
    requires Fits(a, b, c) && DeepMerge(a, b).Some?
    ensures Then(DeepMerge(a, b), Some(c)) == Then(Some(a), DeepMerge(b, c))
    decreases a
  {
    if a.Table? && c.Table? {
      forall k | k in a.entries && k in b.entries && k in c.entries
        ensures Then(DeepMerge(a.entries[k], b.entries[k]), Some(c.entries[k]))
             == Then(Some(a.entries[k]), DeepMerge(b.entries[k], c.entries[k]))
      {
        MergeAssociates(a.entries[k], b.entries[k], c.entries[k]);
      }
      TablesAssociate(a.entries, b.entries, c.entries);
    } else if a.Arr? && c.Arr? {
      ArraysAssociate(a.items, b.items, c.items);
    }
  }

  /** The layers line up: at every path that all three reach, the outer kinds are not interrupted, and
      the last layer does not cover what the first two merge with another kind. */
  predicate Aligned(a: Value, b: Value, c: Value)
    decreases a
  {
    if a.Table? && b.Table? then
      c.Table? &&
      forall k :: k in a.entries && k in b.entries && k in c.entries ==>
        Aligned(a.entries[k], b.entries[k], c.entries[k])
    else if a.Arr? && b.Arr? then c.Arr? && ArraysFit(a.items, b.items, c.items)
    else !(a.Table? && c.Table?) && !(a.Arr? && c.Arr?)
  }

  lemma TablesFailTogether(a: map<string, Value>, b: map<string, Value>, c: map<string, Value>)
    requires DeepMerge(Table(a), Table(b)).None?
    requires forall k :: k in a && k in b && k in c ==>
      Then(DeepMerge(a[k], b[k]), Some(c[k])) == Then(Some(a[k]), DeepMerge(b[k], c[k]))
    ensures Then(Some(Table(a)), DeepMerge(Table(b), Table(c))).None?
  {
    var k :| k in a && k in b && DeepMerge(a[k], b[k]).None?;
    TableMerge(b, c);
    if DeepMerge(Table(b), Table(c)).Some? {
      var right := DeepMerge(Table(b), Table(c)).value.entries;
      assert EntryMerge(b, c, k) == Some(right[k]);
      assert EntryMerge(a, right, k).None?;
      TableMerge(a, right);
    }
  }

  /** On layers that line up the bracketings agree, failures included. */
  lemma {:induction false} AlignedAssociates(a: Value, b: Value, c: Value)
    requires Aligned(a, b, c)
    ensures Then(DeepMerge(a, b), Some(c)) == Then(Some(a), DeepMerge(b, c))
    decreases a
  {
    if a.Table? && b.Table? {
      forall k | k in a.entries && k in b.entries && k in c.entries
        ensures Then(DeepMerge(a.entries[k], b.entries[k]), Some(c.entries[k]))
             == Then(Some(a.entries[k]), DeepMerge(b.entries[k], c.entries[k]))
      {
        AlignedAssociates(a.entries[k], b.entries[k], c.entries[k]);
      }
      if DeepMerge(a, b).Some? {
        TablesAssociate(a.entries, b.entries, c.entries);
      } else {
        TablesFailTogether(a.entries, b.entries, c.entries);
      }
    } else if a.Arr? && b.Arr? {
      ArraysAssociate(a.items, b.items, c.items);
    }
  }

  // Shapes.

  /** At every path that all three layers reach they are all tables, all scalars, all plain arrays, or all
      arrays keyed on one field. */
  predicate SameShape(a: Value, b: Value, c: Value)
    decreases a
  {
    || (&& a.Table? && b.Table? && c.Table?
        && forall k :: k in a.entries && k in b.entries && k in c.entries ==>
             SameShape(a.entries[k], b.entries[k], c.entries[k]))
    || (a.Scalar? && b.Scalar? && c.Scalar?)
    || (a.Arr? && b.Arr? && c.Arr? && ArraysAlike(a.items, b.items, c.items))
  }

  predicate Plain(items: seq<Value>) {
    items == [] || (!AllHave(items, "code") && !AllHave(items, "id"))
  }

  predicate ArraysAlike(a: seq<Value>, b: seq<Value>, c: seq<Value>) {
    || (Plain(a) && Plain(b) && Plain(c))
    || (KeyedOn(a, "code") && KeyedOn(b, "code") && KeyedOn(c, "code"))
    || (KeyedOn(a, "id") && KeyedOn(b, "id") && KeyedOn(c, "id"))
  }

  lemma LackStays(a: seq<Value>, b: seq<Value>, field: string)
    requires !AllHave(a, field)
    ensures !AllHave(a + b, field)
  {
    var i :| 0 <= i < |a| && !HasField(a[i], field);
    assert (a + b)[i] == a[i];
  }

  lemma PlainTogether(a: seq<Value>, b: seq<Value>)
    requires Plain(a) && Plain(b)
    ensures DetectField(a + b).None?
  {
    hide AllHave;
    if a == [] {
      assert a + b == b;
    } else {
      LackStays(a, b, "code");
      LackStays(a, b, "id");
    }
  }

  lemma AlikeArraysFit(a: seq<Value>, b: seq<Value>, c: seq<Value>)
    requires ArraysAlike(a, b, c)
    ensures ArraysFit(a, b, c)
  {
    hide KeyedOn, Plain, ArraysFit;
    if Plain(a) && Plain(b) && Plain(c) {
      PlainTogether(a, b);
      PlainTogether(b, c);
      PlainArraysFit(a, b, c);
    } else if KeyedOn(a, "code") && KeyedOn(b, "code") && KeyedOn(c, "code") {
      KeyedArraysFit(a, b, c, "code");
    } else {
      KeyedArraysFit(a, b, c, "id");
    }
  }

  lemma PlainArraysFit(a: seq<Value>, b: seq<Value>, c: seq<Value>)
    requires DetectField(a + b).None? && DetectField(b + c).None?
    ensures ArraysFit(a, b, c)
  {
  }

  lemma {:induction false} SameShapeAligned(a: Value, b: Value, c: Value)
    requires SameShape(a, b, c)
    ensures Aligned(a, b, c)
    decreases a
  {
    hide ArraysAlike, ArraysFit;
    if a.Table? {
      forall k | k in a.entries && k in b.entries && k in c.entries
        ensures Aligned(a.entries[k], b.entries[k], c.entries[k])
      {
        SameShapeAligned(a.entries[k], b.entries[k], c.entries[k]);
      }
    } else if a.Arr? {
      AlikeArraysFit(a.items, b.items, c.items);
    }
  }

  /** On layers of one shape the bracketing never matters, not even for failing. */
  lemma SameShapeAssociates(a: Value, b: Value, c: Value)
    requires SameShape(a, b, c)
    ensures Then(DeepMerge(a, b), Some(c)) == Then(Some(a), DeepMerge(b, c))
  {
    SameShapeAligned(a, b, c);
    AlignedAssociates(a, b, c);
  }

  // A layer of another kind in between.

  /** Merging this array below that one changes nothing. */
  predicate AbsorbedArray(a: seq<Value>, c: seq<Value>) {
    match DetectField(a + c)
    case None => a == []
    case Some(field) => AllKeyed(a, field) && AllKeyed(c, field) && Extends(c, a, field)
  }

  /** The upper layer says everything the lower one does: of tables it has every key, of plain arrays there
      is nothing below, of keyed arrays it goes through the keys below in their order. */
  predicate Absorbed(a: Value, c: Value)
    decreases a
  {
    if a.Table? && c.Table? then
      forall k :: k in a.entries ==> k in c.entries && Absorbed(a.entries[k], c.entries[k])
    else if a.Arr? && c.Arr? then AbsorbedArray(a.items, c.items)
    else true
  }

  lemma FieldIsHad(a: seq<Value>, c: seq<Value>, field: string)
    requires DetectField(a + c) == Some(field)
    ensures AllHashable(a, field) && AllHashable(c, field) <==> AllKeyed(a, field) && AllKeyed(c, field)
  {
    var all := a + c;
    assert AllHave(all, field);
    assert forall i :: 0 <= i < |a| ==> all[i] == a[i];
    assert forall i :: 0 <= i < |c| ==> all[|a| + i] == c[i];
  }

  lemma AbsorbedArrayIff(a: seq<Value>, c: seq<Value>)
    ensures MergeArrays(a, c) == Some(c) <==> AbsorbedArray(a, c)
  {
    hide DetectField, Heads, Tail, Extends, AllKeyed, AllHashable, AfterOverride;
    match DetectField(a + c)
    case None =>
      assert a + c == c <==> a == [] by {
        if a + c == c {
          assert |a| + |c| == |c|;
        }
      }
    case Some(field) =>
      FieldIsHad(a, c, field);
      if AllKeyed(a, field) && AllKeyed(c, field) {
        MergeShape(a, c, field);
        if Extends(c, a, field) {
          ExtensionIsResult(a, c, field);
        }
        if Heads(a, c, field) + Tail(a, c, field) == c {
          ResultIsExtension(a, c, field);
        }
      }
  }

  /** Merging a layer below changes nothing exactly if it is absorbed. */
  lemma {:induction false} AbsorbedIff(a: Value, c: Value)
    ensures DeepMerge(a, c) == Some(c) <==> Absorbed(a, c)
    decreases a
  {
    hide MergeArrays, AbsorbedArray;
    if a.Table? && c.Table? {
      forall k | k in a.entries && k in c.entries
        ensures DeepMerge(a.entries[k], c.entries[k]) == Some(c.entries[k]) <==> Absorbed(a.entries[k], c.entries[k])
      {
        AbsorbedIff(a.entries[k], c.entries[k]);
      }
      TableAbsorbed(a.entries, c.entries);
    } else if a.Arr? && c.Arr? {
      AbsorbedArrayIff(a.items, c.items);
    }
  }

  lemma TableAbsorbed(a: map<string, Value>, c: map<string, Value>)
    ensures DeepMerge(Table(a), Table(c)) == Some(Table(c)) <==>
            forall k :: k in a ==> k in c && DeepMerge(a[k], c[k]) == Some(c[k])
  {
    TableMerge(a, c);
    if forall k :: k in a ==> k in c && DeepMerge(a[k], c[k]) == Some(c[k]) {
      forall k | k in a || k in c ensures EntryMerge(a, c, k) == Some(c[k]) {
      }
      assert DeepMerge(Table(a), Table(c)).value.entries == c;
    }
    if DeepMerge(Table(a), Table(c)) == Some(Table(c)) {
      forall k | k in a ensures k in c && DeepMerge(a[k], c[k]) == Some(c[k]) {
        assert k in a.Keys + c.Keys;
        assert EntryMerge(a, c, k) == Some(c[k]);
      }
    }
  }

  /** A layer of another kind between two tables or two arrays resets the first one only when the layers
      are merged from below: the bracketings agree exactly if the last layer absorbs the first. */
  lemma InterruptedIff(a: Value, b: Value, c: Value)
    requires (a.Table? && c.Table? && !b.Table?) || (a.Arr? && c.Arr? && !b.Arr?)
    ensures Then(DeepMerge(a, b), Some(c)) == Then(Some(a), DeepMerge(b, c)) <==> Absorbed(a, c)
  {
    AbsorbedIff(a, c);
  }

  lemma MergeOne(item: Value, over: Value, field: string)
    requires IsItem(item, field) && IsItem(over, field)
    ensures MergeByKey([item], [over], field)
         == Some(if Key(item, field) == Key(over, field) then [over] else [item, over])
  {
    MergeIsPutAll([item], [over], field);
    assert [over] == [] + [over];
    PutAllStep([item], [], over, field);
    assert PutAll([item], [over], field) == Put([item], over, field);
    var p := Position([item], Key(over, field), field);
    if p == 0 {
      assert [item][0 := over] == [over];
    } else {
      assert Key([item][0], field) != Key(over, field);
      assert [item] + [over] == [item, over];
    }
  }

  lemma MergePair(item: Value, over: Value, field: string)
    requires IsItem(item, field) && IsItem(over, field)
    requires field == "code" || (field == "id" && (!HasField(item, "code") || !HasField(over, "code")))
    ensures DeepMerge(Arr([item]), Arr([over]))
         == Some(Arr(if Key(item, field) == Key(over, field) then [over] else [item, over]))
  {
    MergeOne(item, over, field);
    var both := [item] + [over];
    assert both[0] == item && both[1] == over;
    assert AllHave(both, field);
    if field == "id" {
      assert !AllHave(both, "code");
    }
  }

  /** An item of an `id` array that gains a `code` shared with a later layer is replaced in one bracketing
      and not in the other, so the condition on arrays keyed on `id` is needed. */
  lemma HiddenCodeBreaksIt(plain: Value, tagged: Value, other: Value)
    requires IsItem(plain, "id") && !HasField(plain, "code")
    requires IsItem(tagged, "id") && IsItem(tagged, "code") && IsItem(other, "id") && IsItem(other, "code")
    requires Key(plain, "id") == Key(tagged, "id") != Key(other, "id") && Key(tagged, "code") == Key(other, "code")
    ensures Then(DeepMerge(Arr([plain]), Arr([tagged])), Some(Arr([other]))) == Some(Arr([other]))
    ensures Then(Some(Arr([plain])), DeepMerge(Arr([tagged]), Arr([other]))) == Some(Arr([plain, other]))
  {
    MergePair(plain, tagged, "id");
    MergePair(tagged, other, "code");
    MergePair(plain, other, "id");
  }
}
