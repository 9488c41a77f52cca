/**
 * The ECMAScript `Map` used throughout the library: entries kept in insertion
 * order, at most one entry per key. `set` on a present key replaces its value in
 * place; on an absent key it appends. `delete` removes the entry and keeps the
 * order of the others.
 */
module OrderedMap {
  import opened Wrappers

  datatype Entry<K, V> = Entry(key: K, value: V)

  type OMap<K, V> = seq<Entry<K, V>>

  /** The keys in iteration order (`[...map.keys()]`). */
  function Keys<K, V>(m: OMap<K, V>): (ks: seq<K>)
    ensures |ks| == |m| && forall i :: 0 <= i < |m| ==> ks[i] == m[i].key
  {
    if m == [] then [] else [m[0].key] + Keys(m[1..])
  }

  ghost predicate Unique<K, V>(m: OMap<K, V>) {
    forall i, j :: 0 <= i < j < |m| ==> m[i].key != m[j].key
  }

  /** `map.has(k)` */
  predicate Has<K(==), V>(m: OMap<K, V>, k: K) {
    m != [] && (m[0].key == k || Has(m[1..], k))
  }

  /** `has` agrees with the list of keys. */
  lemma {:induction false} HasKeys<K, V>(m: OMap<K, V>, k: K)
    ensures Has(m, k) <==> k in Keys(m)
  {
    if m != [] {
      HasKeys(m[1..], k);
      assert Keys(m) == [m[0].key] + Keys(m[1..]);
    }
  }

  /** A key that no entry carries is absent. */
  lemma {:induction false} AbsentKey<K, V>(m: OMap<K, V>, k: K)
    requires forall i :: 0 <= i < |m| ==> m[i].key != k
    ensures !Has(m, k)
  {
    if m != [] {
      assert forall i :: 0 <= i < |m| - 1 ==> m[1..][i] == m[i + 1];
      AbsentKey(m[1..], k);
    }
  }

  /** The key of every entry is present. */
  lemma {:induction false} HasAt<K, V>(m: OMap<K, V>, j: nat)
    requires j < |m|
    ensures Has(m, m[j].key)
  {
    if j > 0 {
      assert m[1..][j - 1] == m[j];
      HasAt(m[1..], j - 1);
    }
  }

  /** Position of the first entry with key `k`, or `|m|` when there is none. */
  function IndexOf<K(==), V>(m: OMap<K, V>, k: K): (idx: nat)
    ensures idx <= |m|
    ensures idx < |m| <==> Has(m, k)
    ensures idx < |m| ==> m[idx].key == k
    ensures forall j :: 0 <= j < idx ==> m[j].key != k
  {
    if m == [] then 0
    else if m[0].key == k then 0
    else 1 + IndexOf(m[1..], k)
  }

  /** `map.get(k)`, with `None` for `undefined`. */
  function Get<K(==), V>(m: OMap<K, V>, k: K): (r: Option<V>)
    ensures r.None? <==> !Has(m, k)
    ensures r.Some? ==> r.value == m[IndexOf(m, k)].value
  {
    if m == [] then None
    else if m[0].key == k then Some(m[0].value)
    else Get(m[1..], k)
  }

  /** `map.set(k, v)` */
  function Set<K(==), V>(m: OMap<K, V>, k: K, v: V): (r: OMap<K, V>)
    ensures Keys(r) == if Has(m, k) then Keys(m) else Keys(m) + [k]
    ensures Has(m, k) ==> r[IndexOf(m, k)] == Entry(k, v)
    ensures forall i :: 0 <= i < |m| && i != IndexOf(m, k) ==> r[i] == m[i]
    ensures !Has(m, k) ==> r == m + [Entry(k, v)]
  {
    if m == [] then [Entry(k, v)]
    else if m[0].key == k then [Entry(k, v)] + m[1..]
    else [m[0]] + Set(m[1..], k, v)
  }

  /** `map.delete(k)`: the map without `k`'s entry, the others in their order. */
  function Delete<K(==), V>(m: OMap<K, V>, k: K): (r: OMap<K, V>)
    ensures !Has(r, k)
    ensures !Has(m, k) ==> r == m
    ensures |r| <= |m|
  {
    if m == [] then []
    else if m[0].key == k then Delete(m[1..], k)
    else [m[0]] + Delete(m[1..], k)
  }

  /** With unique keys, deleting `k` cuts exactly its one entry out of the sequence. */
  lemma {:induction false} DeleteCutsEntry<K, V>(m: OMap<K, V>, k: K)
    requires Unique(m) && Has(m, k)
    ensures Delete(m, k) == m[..IndexOf(m, k)] + m[IndexOf(m, k) + 1..]
  {
    if m[0].key == k {
      assert !Has(m[1..], k) by {
        forall i | 0 <= i < |m| - 1 ensures m[1..][i].key != k { assert m[i + 1].key != m[0].key; }
        AbsentKey(m[1..], k);
      }
    } else {
      var t := m[1..];
      assert Unique(t) by {
        forall i, j | 0 <= i < j < |t| ensures t[i].key != t[j].key { assert m[i + 1].key != m[j + 1].key; }
      }
      assert Has(t, k) by { assert Keys(m) == [m[0].key] + Keys(t); }
      DeleteCutsEntry(t, k);
      var n := IndexOf(t, k);
      assert IndexOf(m, k) == n + 1;
      assert m[..n + 1] == [m[0]] + t[..n];
      assert m[n + 2..] == t[n + 1..];
    }
  }

  /** Reading back after `set`: the new value under `k`, every other key as before. */
  lemma {:induction false} GetAfterSet<K, V>(m: OMap<K, V>, k: K, v: V, j: K)
    ensures Get(Set(m, k, v), j) == if j == k then Some(v) else Get(m, j)
  {
    if m != [] && m[0].key != k {
      GetAfterSet(m[1..], k, v, j);
    }
  }

  /** Reading back after `delete`: nothing under `k`, every other key as before. */
  lemma {:induction false} GetAfterDelete<K, V>(m: OMap<K, V>, k: K, j: K)
    ensures Get(Delete(m, k), j) == if j == k then None else Get(m, j)
  {
    if m != [] {
      GetAfterDelete(m[1..], k, j);
    }
  }

  /** `set` on a key that already holds `v` changes nothing. */
  lemma {:induction false} SetSameValue<K, V>(m: OMap<K, V>, k: K, v: V)
    requires Get(m, k) == Some(v)
    ensures Set(m, k, v) == m
  {
    if m[0].key == k {
      assert [Entry(k, v)] + m[1..] == [m[0]] + m[1..] == m;
    } else {
      SetSameValue(m[1..], k, v);
      assert [m[0]] + m[1..] == m;
    }
  }

  /** With unique keys, every entry is what its own key reads. */
  lemma GetAt<K, V>(m: OMap<K, V>, j: nat)
    requires Unique(m) && j < |m|
    ensures Get(m, m[j].key) == Some(m[j].value)
  {
    HasAt(m, j);
    var idx := IndexOf(m, m[j].key);
    assert idx == j by {
      if idx < j {
        assert m[idx].key == m[j].key;
      }
    }
  }

  /** A second `set` of the same key overrides the first, in the same place. */
  lemma {:induction false} SetTwice<K, V>(m: OMap<K, V>, k: K, v: V, w: V)
    ensures Set(Set(m, k, v), k, w) == Set(m, k, w)
  {
    if m != [] && m[0].key != k {
      SetTwice(m[1..], k, v, w);
    }
  }

  /** `set` never introduces a second entry for a key. */
  lemma SetKeepsUnique<K, V>(m: OMap<K, V>, k: K, v: V)
    requires Unique(m)
    ensures Unique(Set(m, k, v))
  {
    var r := Set(m, k, v);
    forall i, j | 0 <= i < j < |r| ensures r[i].key != r[j].key {
      assert Keys(r)[i] == r[i].key && Keys(r)[j] == r[j].key;
      if !Has(m, k) && j == |m| {
        assert Keys(m)[i] == m[i].key;
      } else {
        assert Keys(m)[i] == m[i].key && Keys(m)[j] == m[j].key;
      }
    }
  }

  /** `delete` never introduces a second entry for a key. */
  lemma {:induction false} DeleteKeepsUnique<K, V>(m: OMap<K, V>, k: K)
    requires Unique(m)
    ensures Unique(Delete(m, k))
  {
    if Has(m, k) {
      DeleteCutsEntry(m, k);
    }
  }

  /** Looking up after appending one entry. */
  lemma {:induction false} GetAppend<K, V>(m: OMap<K, V>, e: Entry<K, V>, g: K)
    ensures Get(m + [e], g) == if Has(m, g) then Get(m, g) else if e.key == g then Some(e.value) else None
  {
    if m != [] {
      assert (m + [e])[1..] == m[1..] + [e];
      GetAppend(m[1..], e, g);
    }
  }

  /** Deleting a key that the front part does not hold only touches the back part. */
  lemma {:induction false} DeleteAppend<K, V>(x: OMap<K, V>, y: OMap<K, V>, k: K)
    requires !Has(x, k)
    ensures Delete(x + y, k) == x + Delete(y, k)
  {
    if x == [] {
      assert x + y == y;
    } else {
      calc {
        Delete(x + y, k);
        { assert x + y == [x[0]] + (x[1..] + y); }
        Delete([x[0]] + (x[1..] + y), k);
        { DeleteCons(x[0], x[1..] + y, k); }
        [x[0]] + Delete(x[1..] + y, k);
        { DeleteAppend(x[1..], y, k); }
        [x[0]] + (x[1..] + Delete(y, k));
        x + Delete(y, k);
      }
    }
  }

  /** Deleting a key other than the front entry's keeps that entry in front. */
  lemma DeleteCons<K, V>(e: Entry<K, V>, m: OMap<K, V>, k: K)
    requires e.key != k
    ensures Delete([e] + m, k) == [e] + Delete(m, k)
  {
    assert ([e] + m)[1..] == m;
  }

  /** In a map with unique keys, the last entry's key is not among the ones before it. */
  lemma UniqueFront<K, V>(b: OMap<K, V>)
    requires Unique(b) && b != []
    ensures Unique(b[..|b| - 1]) && !Has(b[..|b| - 1], b[|b| - 1].key)
  {
    var p := b[..|b| - 1];
    forall i | 0 <= i < |p| ensures p[i].key != b[|b| - 1].key {
      assert p[i] == b[i];
    }
    AbsentKey(p, b[|b| - 1].key);
  }

  /** The front entry's key appears nowhere in the rest of a map with unique keys. */
  lemma UniqueRest<K, V>(t: OMap<K, V>)
    requires Unique(t) && t != []
    ensures Unique(t[1..]) && !Has(t[1..], t[0].key)
  {
    var rest := t[1..];
    forall i, j | 0 <= i < j < |rest| ensures rest[i].key != rest[j].key { assert t[i + 1].key != t[j + 1].key; }
    forall i | 0 <= i < |rest| ensures rest[i].key != t[0].key { assert rest[i] == t[i + 1]; }
    AbsentKey(rest, t[0].key);
  }

  /** A key held behind a front entry that is nowhere else sits one place later than in the rest. */
  lemma IndexAfterFront<K, V>(t: OMap<K, V>, n: K)
    requires t != [] && Has(t[1..], n) && !Has(t[1..], t[0].key)
    ensures IndexOf(t, n) == 1 + IndexOf(t[1..], n)
  {
  }
}
