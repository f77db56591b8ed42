/**
 * A JavaScript `Map` as the main process uses it for its window registry:
 * a sequence of entries in insertion order. `set` on a present key keeps the
 * key's position, `set` on a new key appends, `delete` drops the key.
 */
module OrderedMap {

  type Entries<K, V> = seq<(K, V)>

  /** No key appears twice: every `Map` has this shape. */
  predicate KeysUnique<K(==), V>(e: Entries<K, V>)
  {
    forall i, j :: 0 <= i < j < |e| ==> e[i].0 != e[j].0
  }

  /** The dictionary an entry sequence stands for (the earliest entry of a key wins). */
  function ToMap<K(==), V>(e: Entries<K, V>): map<K, V>
  {
    if e == [] then map[] else ToMap(e[1..])[e[0].0 := e[0].1]
  }

  /** `map.set(k, v)`. */
  function Set<K(==), V>(e: Entries<K, V>, k: K, v: V): Entries<K, V>
  {
    if e == [] then [(k, v)]
    else if e[0].0 == k then [(k, v)] + e[1..]
    else [e[0]] + Set(e[1..], k, v)
  }

  /** `map.delete(k)`. */
  function Delete<K(==), V>(e: Entries<K, V>, k: K): Entries<K, V>
  {
    if e == [] then []
    else if e[0].0 == k then Delete(e[1..], k)
    else [e[0]] + Delete(e[1..], k)
  }

  /** The keys of the dictionary view are the keys of the entries. */
  lemma {:induction false} InToMap<K, V>(e: Entries<K, V>, k: K)
    ensures k in ToMap(e) <==> exists i :: 0 <= i < |e| && e[i].0 == k
  {
    if e != [] {
      InToMap(e[1..], k);
      if k != e[0].0 && k in ToMap(e) {
        var i :| 0 <= i < |e[1..]| && e[1..][i].0 == k;
        assert e[i + 1].0 == k;
      }
      if k != e[0].0 && exists i :: 0 <= i < |e| && e[i].0 == k {
        var i :| 0 <= i < |e| && e[i].0 == k;
        assert e[1..][i - 1].0 == k;
      }
    }
  }

  /** In a `Map`, every entry is what the dictionary view maps its key to. */
  lemma {:induction false} EntryInToMap<K, V>(e: Entries<K, V>, i: nat)
    requires KeysUnique(e) && i < |e|
    ensures e[i].0 in ToMap(e) && ToMap(e)[e[i].0] == e[i].1
  {
    if i > 0 {
      EntryInToMap(e[1..], i - 1);
    }
  }

  /** After `set(k, v)`, `k` maps to `v` and every other key is unchanged. */
  lemma {:induction false} SetUpdatesOneKey<K, V>(e: Entries<K, V>, k: K, v: V)
    ensures ToMap(Set(e, k, v)) == ToMap(e)[k := v]
  {
    if e != [] && e[0].0 != k {
      SetUpdatesOneKey(e[1..], k, v);
      assert ([e[0]] + Set(e[1..], k, v))[1..] == Set(e[1..], k, v);
    }
  }

  /**
   * `set` on a present key keeps every key in its insertion position;
   * `set` on a new key appends it.
   */
  lemma {:induction false} SetKeepsOrder<K, V>(e: Entries<K, V>, k: K, v: V)
    ensures k in ToMap(e) ==> |Set(e, k, v)| == |e| && forall i :: 0 <= i < |e| ==> Set(e, k, v)[i].0 == e[i].0
    ensures k !in ToMap(e) ==> Set(e, k, v) == e + [(k, v)]
  {
    if e != [] && e[0].0 != k {
      SetKeepsOrder(e[1..], k, v);
      assert k in ToMap(e) <==> k in ToMap(e[1..]);
      assert e == [e[0]] + e[1..];
    }
  }

  /** On a `Map`, `set(k, v)` leaves a `Map` whose entries are `(k, v)` and the old entries of the other keys. */
  lemma {:induction false} SetEntries<K, V>(e: Entries<K, V>, k: K, v: V)
    requires KeysUnique(e)
    ensures KeysUnique(Set(e, k, v))
    ensures forall x :: x in Set(e, k, v) ==> x == (k, v) || (x in e && x.0 != k)
    ensures (k, v) in Set(e, k, v)
    ensures forall x :: x in e && x.0 != k ==> x in Set(e, k, v)
  {
    if e != [] {
      assert forall x :: x in e <==> x == e[0] || x in e[1..];
      if e[0].0 == k {
        forall x | x in e[1..] ensures x.0 != k {
          var i :| 0 <= i < |e[1..]| && e[1..][i] == x;
          assert e[i + 1] == x;
        }
      } else {
        assert KeysUnique(e[1..]);
        SetEntries(e[1..], k, v);
        var r := Set(e, k, v);
        assert r == [e[0]] + Set(e[1..], k, v);
        forall i, j | 0 <= i < j < |r| ensures r[i].0 != r[j].0 {
          if i == 0 {
            assert r[j] in Set(e[1..], k, v);
            if r[j] != (k, v) {
              var m :| 0 <= m < |e[1..]| && e[1..][m] == r[j];
              assert e[m + 1] == r[j];
            }
          }
        }
      }
    }
  }

  /** After `delete(k)`, `k` is absent and every other key is unchanged. */
  lemma {:induction false} DeleteRemovesOneKey<K, V>(e: Entries<K, V>, k: K)
    ensures ToMap(Delete(e, k)) == ToMap(e) - {k}
  {
    if e != [] {
      DeleteRemovesOneKey(e[1..], k);
      if e[0].0 != k {
        assert ([e[0]] + Delete(e[1..], k))[1..] == Delete(e[1..], k);
      }
    }
  }

  /** `delete(k)` drops exactly the entries of `k`, keeping the rest, so a `Map` stays a `Map`. */
  lemma {:induction false} DeleteEntries<K, V>(e: Entries<K, V>, k: K)
    ensures forall x :: x in Delete(e, k) ==> x in e && x.0 != k
    ensures forall x :: x in e && x.0 != k ==> x in Delete(e, k)
    ensures KeysUnique(e) ==> KeysUnique(Delete(e, k))
  {
    if e != [] {
      DeleteEntries(e[1..], k);
      assert forall x :: x in e <==> x == e[0] || x in e[1..];
      if KeysUnique(e) {
        assert KeysUnique(e[1..]);
        var r := Delete(e, k);
        if e[0].0 != k {
          forall i, j | 0 <= i < j < |r| ensures r[i].0 != r[j].0 {
            if i == 0 {
              assert r[j] in Delete(e[1..], k);
              var m :| 0 <= m < |e[1..]| && e[1..][m] == r[j];
              assert e[m + 1] == r[j];
            }
          }
        }
      }
    }
  }
}
