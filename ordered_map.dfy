/**
 * A JavaScript `Map`: its entries in insertion order. `set` on a key that is
 * present replaces the value where it stands; `set` on a new key appends;
 * `delete` removes the key; `keys()` enumerates in insertion order.
 */
module OrderedMap {
  import opened Wrappers

  type Entries<K, V> = seq<(K, V)>

  /** At most one entry per key: what a `Map` guarantees. */
  predicate NoDupKeys<K(==), V>(m: Entries<K, V>)
  {
    forall i, j :: 0 <= i < j < |m| ==> m[i].0 != m[j].0
  }

  /** `Array.from(m.keys())`. */
  function Keys<K, V>(m: Entries<K, V>): (ks: seq<K>)
    ensures |ks| == |m|
    ensures forall i :: 0 <= i < |m| ==> ks[i] == m[i].0
  {
    seq(|m|, i requires 0 <= i < |m| => m[i].0)
  }

  /** The key set of the map. */
  function KeySet<K, V>(m: Entries<K, V>): set<K>
  {
    set i | 0 <= i < |m| :: m[i].0
  }

  /** `keys()` lists exactly the key set, each key once when the map has no duplicate keys. */
  lemma KeysListKeySet<K, V>(m: Entries<K, V>)
    ensures forall k :: k in Keys(m) <==> k in KeySet(m)
    ensures NoDupKeys(m) ==> forall i, j :: 0 <= i < j < |Keys(m)| ==> Keys(m)[i] != Keys(m)[j]
  {
    forall k | k in KeySet(m) ensures k in Keys(m) {
      var i :| 0 <= i < |m| && m[i].0 == k;
      assert Keys(m)[i] == k;
    }
  }

  lemma KeySetCons<K, V>(e: (K, V), rest: Entries<K, V>)
    ensures KeySet([e] + rest) == {e.0} + KeySet(rest)
    ensures Keys([e] + rest) == [e.0] + Keys(rest)
  {
    var m := [e] + rest;
    forall x | x in KeySet(m) ensures x in {e.0} + KeySet(rest) {
      var i :| 0 <= i < |m| && m[i].0 == x;
      if i > 0 { assert rest[i - 1].0 == x; }
    }
    forall x | x in KeySet(rest) ensures x in KeySet(m) {
      var i :| 0 <= i < |rest| && rest[i].0 == x;
      assert m[i + 1].0 == x;
    }
    assert m[0].0 == e.0;
  }

  lemma NoDupCons<K, V>(e: (K, V), rest: Entries<K, V>)
    ensures NoDupKeys([e] + rest) <==> e.0 !in KeySet(rest) && NoDupKeys(rest)
  {
    var m := [e] + rest;
    if NoDupKeys(m) {
      forall i, j | 0 <= i < j < |rest| ensures rest[i].0 != rest[j].0 {
        assert m[i + 1] == rest[i] && m[j + 1] == rest[j];
      }
      forall i | 0 <= i < |rest| ensures rest[i].0 != e.0 {
        assert m[0] == e && m[i + 1] == rest[i];
        assert m[0].0 != m[i + 1].0;
      }
    }
    if e.0 !in KeySet(rest) && NoDupKeys(rest) {
      forall i, j | 0 <= i < j < |m| ensures m[i].0 != m[j].0 {
        if i == 0 { assert rest[j - 1].0 in KeySet(rest); }
        else { assert m[i] == rest[i - 1] && m[j] == rest[j - 1]; }
      }
    }
  }

  /** `m.get(k)`: the value of the key's entry, or nothing when the key is absent. */
  function Get<K(==), V>(m: Entries<K, V>, k: K): (r: Option<V>)
    ensures r.None? <==> k !in KeySet(m)
    ensures r.Some? ==> (k, r.value) in m
  {
    if m == [] then None
    else
      KeySetCons(m[0], m[1..]);
      assert m == [m[0]] + m[1..];
      if m[0].0 == k then Some(m[0].1) else Get(m[1..], k)
  }

  /** In a map without duplicate keys, `get` finds the value of the key's one entry. */
  lemma {:induction false} GetUnique<K, V>(m: Entries<K, V>, k: K, v: V)
    requires NoDupKeys(m) && (k, v) in m
    ensures Get(m, k) == Some(v)
  {
    NoDupCons(m[0], m[1..]);
    assert m == [m[0]] + m[1..];
    if m[0].0 != k {
      GetUnique(m[1..], k, v);
    }
  }

  /** `m.set(k, v)`. */
  function Set<K(==), V>(m: Entries<K, V>, k: K, v: V): (r: Entries<K, V>)
  {
    if m == [] then [(k, v)]
    else if m[0].0 == k then [(k, v)] + m[1..]
    else [m[0]] + Set(m[1..], k, v)
  }

  /** After `set`, the key maps to the new value and every other key keeps its value. */
  lemma {:induction false} SetGet<K, V>(m: Entries<K, V>, k: K, v: V, k': K)
    ensures Get(Set(m, k, v), k') == if k' == k then Some(v) else Get(m, k')
  {
    if m != [] && m[0].0 != k {
      SetGet(m[1..], k, v, k');
    }
  }

  /** `set` adds the key to the key set. */
  lemma {:induction false} SetKeySet<K, V>(m: Entries<K, V>, k: K, v: V)
    ensures KeySet(Set(m, k, v)) == KeySet(m) + {k}
  {
    if m == [] {
      KeySetCons((k, v), []);
    } else {
      KeySetCons(m[0], m[1..]);
      assert m == [m[0]] + m[1..];
      if m[0].0 == k {
        KeySetCons((k, v), m[1..]);
      } else {
        SetKeySet(m[1..], k, v);
        KeySetCons(m[0], Set(m[1..], k, v));
      }
    }
  }

  /** `set` on a present key keeps the insertion order of the keys; on a new key it appends the key. */
  lemma {:induction false} SetKeyOrder<K, V>(m: Entries<K, V>, k: K, v: V)
    ensures k in KeySet(m) ==> Keys(Set(m, k, v)) == Keys(m)
    ensures k !in KeySet(m) ==> Keys(Set(m, k, v)) == Keys(m) + [k]
  {
    if m == [] {
      KeySetCons((k, v), []);
    } else {
      KeySetCons(m[0], m[1..]);
      assert m == [m[0]] + m[1..];
      if m[0].0 == k {
        KeySetCons((k, v), m[1..]);
      } else {
        SetKeyOrder(m[1..], k, v);
        KeySetCons(m[0], Set(m[1..], k, v));
      }
    }
  }

  /** `set` never creates a second entry for a key, and its entries are the old ones and the new one. */
  lemma {:induction false} SetEntries<K, V>(m: Entries<K, V>, k: K, v: V)
    ensures NoDupKeys(m) ==> NoDupKeys(Set(m, k, v))
    ensures forall e :: e in Set(m, k, v) ==> e in m || e == (k, v)
  {
    if m != [] {
      NoDupCons(m[0], m[1..]);
      assert m == [m[0]] + m[1..];
      if m[0].0 == k {
        KeySetCons((k, v), m[1..]);
        NoDupCons((k, v), m[1..]);
      } else {
        SetEntries(m[1..], k, v);
        SetKeySet(m[1..], k, v);
        KeySetCons(m[0], m[1..]);
        NoDupCons(m[0], Set(m[1..], k, v));
      }
    }
  }

  /** `m.delete(k)`. */
  function Delete<K(==), V>(m: Entries<K, V>, k: K): (r: Entries<K, V>)
  {
    if m == [] then []
    else if m[0].0 == k then Delete(m[1..], k)
    else [m[0]] + Delete(m[1..], k)
  }

  /** After `delete`, the key is absent and every other key keeps its value. */
  lemma {:induction false} DeleteGet<K, V>(m: Entries<K, V>, k: K, k': K)
    ensures Get(Delete(m, k), k') == if k' == k then None else Get(m, k')
  {
    if m != [] {
      DeleteGet(m[1..], k, k');
    }
  }

  /** The entries after `delete` are exactly the old entries of the other keys. */
  lemma {:induction false} DeleteEntries<K, V>(m: Entries<K, V>, k: K)
    ensures forall e :: e in Delete(m, k) <==> e in m && e.0 != k
  {
    if m != [] {
      DeleteEntries(m[1..], k);
      assert m == [m[0]] + m[1..];
    }
  }

  /** `delete` removes the key from the key set and no other key. */
  lemma {:induction false} DeleteKeySet<K, V>(m: Entries<K, V>, k: K)
    ensures KeySet(Delete(m, k)) == KeySet(m) - {k}
  {
    if m != [] {
      DeleteKeySet(m[1..], k);
      KeySetCons(m[0], m[1..]);
      assert m == [m[0]] + m[1..];
      if m[0].0 != k {
        KeySetCons(m[0], Delete(m[1..], k));
      }
    }
  }

  /** `delete` never creates a duplicate key. */
  lemma {:induction false} DeleteNoDup<K, V>(m: Entries<K, V>, k: K)
    requires NoDupKeys(m)
    ensures NoDupKeys(Delete(m, k))
  {
    if m != [] {
      NoDupCons(m[0], m[1..]);
      assert m == [m[0]] + m[1..];
      DeleteNoDup(m[1..], k);
      if m[0].0 != k {
        DeleteKeySet(m[1..], k);
        NoDupCons(m[0], Delete(m[1..], k));
      }
    }
  }
}
