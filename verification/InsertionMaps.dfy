/**
 * ECMAScript's `Map`: a table that remembers the order its keys were first set in. Setting a key that
 * is there keeps its place, and deleting one closes the gap, so iterating a table gives the order in
 * which the source would visit it.
 */
module InsertionMaps {

  datatype Dict<K(==, !new), V> = Dict(keys: seq<K>, table: map<K, V>) {

    ghost predicate Valid() {
      && (forall k :: k in keys <==> k in table)
      && (forall i, j :: 0 <= i < j < |keys| ==> keys[i] != keys[j])
    }

    /** `set`: an existing key keeps its place. */
    function Put(k: K, v: V): (d: Dict<K, V>)
      requires Valid()
      ensures d.Valid()
      ensures d.table == table[k := v]
    {
      Dict(if k in table then keys else keys + [k], table[k := v])
    }

    /** `delete`. */
    function Drop(k: K): (d: Dict<K, V>)
      requires Valid()
      ensures d.Valid()
      ensures d.table == table - {k}
    {
      RemoveMembers(keys, k);
      Dict(Remove(keys, k), table - {k})
    }
  }

  function Remove<K(==)>(keys: seq<K>, k: K): seq<K> {
    if keys == [] then [] else if keys[0] == k then keys[1..] else [keys[0]] + Remove(keys[1..], k)
  }

  lemma {:induction false} RemoveMembers<K(!new)>(keys: seq<K>, k: K)
    requires forall i, j :: 0 <= i < j < |keys| ==> keys[i] != keys[j]
    ensures forall x :: x in Remove(keys, k) <==> x in keys && x != k
    ensures forall i, j :: 0 <= i < j < |Remove(keys, k)| ==> Remove(keys, k)[i] != Remove(keys, k)[j]
  {
    if keys != [] {
      assert keys == [keys[0]] + keys[1..];
      assert keys[0] !in keys[1..];
      RemoveMembers(keys[1..], k);
      var rest := Remove(keys[1..], k);
      if keys[0] != k {
        forall i, j | 0 <= i < j < |Remove(keys, k)| ensures Remove(keys, k)[i] != Remove(keys, k)[j] {
          assert Remove(keys, k)[j] == rest[j - 1];
          assert rest[j - 1] in rest;
        }
      }
    }
  }

  lemma {:induction false} RemoveMiddle<K>(a: seq<K>, k: K, b: seq<K>)
    requires k !in a
    ensures Remove(a + [k] + b, k) == a + b
  {
    var whole := a + [k] + b;
    if a == [] {
      assert whole[0] == k && whole[1..] == b;
    } else {
      assert whole[0] == a[0] && whole[1..] == a[1..] + [k] + b;
      RemoveMiddle(a[1..], k, b);
      assert a + b == [a[0]] + (a[1..] + b);
    }
  }

  function Empty<K(!new), V>(): (d: Dict<K, V>)
    ensures d.Valid()
  {
    Dict([], map[])
  }

  function KeySet<K(==)>(keys: seq<K>): set<K> {
    set k | k in keys
  }

  /** The first `n` keys, as a set, are that many keys. */
  lemma {:induction false} PrefixSize<K(!new)>(keys: seq<K>, n: nat)
    requires n <= |keys| && forall i, j :: 0 <= i < j < |keys| ==> keys[i] != keys[j]
    ensures |KeySet(keys[..n])| == n
  {
    if n > 0 {
      PrefixSize(keys, n - 1);
      assert keys[..n] == keys[..n - 1] + [keys[n - 1]];
      assert KeySet(keys[..n]) == KeySet(keys[..n - 1]) + {keys[n - 1]};
      assert keys[n - 1] !in keys[..n - 1];
    }
  }
}
