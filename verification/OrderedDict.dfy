/** Python's `dict`: a map that remembers the order in which its keys were first inserted. */
module OrderedDict {
  import opened Prelude

  datatype Dict<K(==, !new), V> = Dict(keys: seq<K>, vals: map<K, V>) {
    ghost predicate Valid() {
      (forall i, j :: 0 <= i < j < |keys| ==> keys[i] != keys[j]) &&
      (forall k :: k in keys <==> k in vals)
    }

    function Get(k: K, default: V): V {
      if k in vals then vals[k] else default
    }

    function Put(k: K, v: V): Dict<K, V> {
      Dict(if k in vals then keys else keys + [k], vals[k := v])
    }

    lemma PutValid(k: K, v: V)
      requires Valid()
      ensures Put(k, v).Valid()
      ensures forall x :: x in Put(k, v).keys <==> x in keys || x == k
    {
    }
  }

  function Empty<K(!new), V>(): Dict<K, V> {
    Dict([], map[])
  }

  // Sums over keys.

  function SumOver<K>(keys: seq<K>, f: K -> real): real {
    if keys == [] then 0.0 else SumOver(keys[..|keys| - 1], f) + f(keys[|keys| - 1])
  }

  lemma SumOverPush<K>(keys: seq<K>, k: K, f: K -> real)
    ensures SumOver(keys + [k], f) == SumOver(keys, f) + f(k)
  {
    assert (keys + [k])[..|keys|] == keys;
  }

  lemma {:induction false} SumOverSame<K>(keys: seq<K>, f: K -> real, g: K -> real)
    requires forall i :: 0 <= i < |keys| ==> f(keys[i]) == g(keys[i])
    ensures SumOver(keys, f) == SumOver(keys, g)
  {
    if keys != [] {
      SumOverSame(keys[..|keys| - 1], f, g);
    }
  }

  lemma {:induction false} SumOverNonNegative<K>(keys: seq<K>, f: K -> real)
    requires forall i :: 0 <= i < |keys| ==> f(keys[i]) >= 0.0
    ensures SumOver(keys, f) >= 0.0
  {
    if keys != [] {
      SumOverNonNegative(keys[..|keys| - 1], f);
    }
  }

  /** Changing the summand at one key that occurs once. */
  lemma {:induction false} SumOverChange<K>(keys: seq<K>, i: nat, f: K -> real, g: K -> real)
    requires i < |keys| && forall j :: 0 <= j < |keys| && j != i ==> f(keys[j]) == g(keys[j])
    ensures SumOver(keys, g) == SumOver(keys, f) - f(keys[i]) + g(keys[i])
  {
    var front := keys[..|keys| - 1];
    if i == |front| {
      SumOverSame(front, f, g);
    } else {
      SumOverChange(front, i, f, g);
    }
  }
}
