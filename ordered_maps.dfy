/**
 * A JavaScript `Map`: `set` on a new key appends it, `set` on a present key
 * replaces the value in place, and `values()` follows first-insertion order.
 */
module OrderedMaps {
  import opened Optional
  import opened Strings

  datatype OMap<K(==, !new), V> = OMap(keys: seq<K>, vals: map<K, V>) {

    /** Keys are listed once each, and exactly the keys with a value are listed. */
    ghost predicate Valid() {
      Distinct(keys) && (forall k :: k in vals <==> k in keys)
    }
  }

  function Empty<K(==, !new), V>(): (m: OMap<K, V>)
    ensures m.Valid() && m.keys == []
  {
    OMap([], map[])
  }

  /** `m.set(k, v)`. */
  function Put<K(==, !new), V>(m: OMap<K, V>, k: K, v: V): (r: OMap<K, V>)
    requires m.Valid()
    ensures r.Valid()
    ensures r.keys == if k in m.keys then m.keys else m.keys + [k]
    ensures r.vals == m.vals[k := v]
  {
    if k in m.vals then OMap(m.keys, m.vals[k := v]) else OMap(m.keys + [k], m.vals[k := v])
  }

  /** The values stored under `keys`, in that order. */
  function ValuesOf<K(==, !new), V>(keys: seq<K>, vals: map<K, V>): (r: seq<V>)
    requires forall i :: 0 <= i < |keys| ==> keys[i] in vals
    ensures |r| == |keys|
    ensures forall i :: 0 <= i < |r| ==> r[i] == vals[keys[i]]
  {
    if keys == [] then [] else [vals[keys[0]]] + ValuesOf(keys[1..], vals)
  }

  /** `[...m.values()]`. */
  function Values<K(==, !new), V>(m: OMap<K, V>): (r: seq<V>)
    requires m.Valid()
    ensures |r| == |m.keys|
    ensures forall i :: 0 <= i < |r| ==> r[i] == m.vals[m.keys[i]]
  {
    ValuesOf(m.keys, m.vals)
  }

  /**
   * The keys of a map are the distinct keys of every `set` call so far, in
   * order of first occurrence: one more `set` keeps that true.
   */
  lemma PutKeys<K(!new), V>(m: OMap<K, V>, xs: seq<K>, k: K, v: V)
    requires m.Valid() && m.keys == Dedup(xs)
    ensures Put(m, k, v).keys == Dedup(xs + [k])
  {
    DedupSnoc(xs, k);
  }

  /** The keys of `xs`, in order: `xs.map(key)`. */
  function KeysOf<K, V>(xs: seq<V>, key: V -> K): (r: seq<K>)
    ensures |r| == |xs|
    ensures forall i :: 0 <= i < |xs| ==> r[i] == key(xs[i])
  {
    seq(|xs|, i requires 0 <= i < |xs| => key(xs[i]))
  }

  /** The last element of `xs` whose key is `k`. */
  function LastWith<K(==), V>(xs: seq<V>, key: V -> K, k: K): (r: Option<V>)
    ensures r.Some? ==> r.value in xs && key(r.value) == k
  {
    if xs == [] then None
    else if key(xs[|xs| - 1]) == k then Some(xs[|xs| - 1])
    else
      var init := xs[..|xs| - 1];
      assert forall v :: v in init ==> v in xs;
      LastWith(init, key, k)
  }

  /** Among two runs of `set` calls, the later run wins for every key it mentions. */
  lemma {:induction false} LastWithAppend<K, V>(a: seq<V>, b: seq<V>, key: V -> K, k: K)
    ensures LastWith(a + b, key, k) == LastWith(b, key, k).OrElse(LastWith(a, key, k))
    decreases |b|
  {
    if b == [] {
      assert a + b == a;
    } else {
      var last := b[|b| - 1];
      assert (a + b)[..|a + b| - 1] == a + b[..|b| - 1];
      if key(last) != k {
        LastWithAppend(a, b[..|b| - 1], key, k);
      }
    }
  }

  /** `new Map(xs.map((v) => [key(v), v]))`. */
  function FromList<K(==, !new), V>(xs: seq<V>, key: V -> K): (m: OMap<K, V>)
    ensures m.Valid()
  {
    if xs == [] then Empty()
    else Put(FromList(xs[..|xs| - 1], key), key(xs[|xs| - 1]), xs[|xs| - 1])
  }

  /** Every value sits under its own key. */
  lemma {:induction false} FromListKeyed<K(!new), V>(xs: seq<V>, key: V -> K)
    ensures forall k :: k in FromList(xs, key).vals ==> key(FromList(xs, key).vals[k]) == k
    decreases |xs|
  {
    if xs != [] {
      FromListKeyed(xs[..|xs| - 1], key);
    }
  }

  /** The map lists each key of `xs` once, in order of first occurrence. */
  lemma {:induction false} FromListKeys<K(!new), V>(xs: seq<V>, key: V -> K)
    ensures FromList(xs, key).keys == Dedup(KeysOf(xs, key))
    decreases |xs|
  {
    if xs != [] {
      FromListKeys(xs[..|xs| - 1], key);
      FromListKeysStep(xs, key);
    }
  }

  lemma FromListKeysStep<K(!new), V>(xs: seq<V>, key: V -> K)
    requires xs != []
    requires FromList(xs[..|xs| - 1], key).keys == Dedup(KeysOf(xs[..|xs| - 1], key))
    ensures FromList(xs, key).keys == Dedup(KeysOf(xs, key))
  {
    var init := xs[..|xs| - 1];
    KeysOfInit(xs, key);
    DedupSnoc(KeysOf(init, key), key(xs[|xs| - 1]));
  }

  /** The map holds, under each key, the last element of `xs` with that key. */
  lemma {:induction false} FromListLast<K(!new), V>(xs: seq<V>, key: V -> K, k: K)
    ensures k in FromList(xs, key).vals <==> LastWith(xs, key, k).Some?
    ensures k in FromList(xs, key).vals ==> Some(FromList(xs, key).vals[k]) == LastWith(xs, key, k)
    decreases |xs|
  {
    if xs != [] {
      FromListLast(xs[..|xs| - 1], key, k);
    }
  }

  lemma KeysOfInit<K, V>(xs: seq<V>, key: V -> K)
    requires xs != []
    ensures KeysOf(xs, key) == KeysOf(xs[..|xs| - 1], key) + [key(xs[|xs| - 1])]
  {
  }

  /** `for (const x of xs) m.set(key(x), x)` on an existing map. */
  function PutAll<K(==, !new), V>(m: OMap<K, V>, xs: seq<V>, key: V -> K): (r: OMap<K, V>)
    requires m.Valid()
    ensures r.Valid()
  {
    if xs == [] then m
    else Put(PutAll(m, xs[..|xs| - 1], key), key(xs[|xs| - 1]), xs[|xs| - 1])
  }

  /** Seeding a map from `a` and then setting every element of `b` builds the map of `a + b`. */
  lemma {:induction false} PutAllFromList<K(!new), V>(a: seq<V>, b: seq<V>, key: V -> K)
    ensures PutAll(FromList(a, key), b, key) == FromList(a + b, key)
    decreases |b|
  {
    if b == [] {
      assert a + b == a;
    } else {
      PutAllFromList(a, b[..|b| - 1], key);
      assert (a + b)[..|a + b| - 1] == a + b[..|b| - 1];
    }
  }

  /** A value is listed by the map exactly when it is the last one `set` under its key. */
  lemma FromListValues<K(!new), V>(xs: seq<V>, key: V -> K, v: V)
    ensures v in Values(FromList(xs, key)) <==> LastWith(xs, key, key(v)) == Some(v)
  {
    var m := FromList(xs, key);
    var vs := Values(m);
    FromListLast(xs, key, key(v));
    FromListKeys(xs, key);
    FromListKeyed(xs, key);
    if v in vs {
      var i :| 0 <= i < |vs| && vs[i] == v;
      assert m.keys[i] in m.vals;
    }
    if LastWith(xs, key, key(v)) == Some(v) {
      var i :| 0 <= i < |m.keys| && m.keys[i] == key(v);
      assert vs[i] == v;
    }
  }

  /** The listed values carry the listed keys, so no two of them share a key. */
  lemma FromListValuesKeys<K(!new), V>(xs: seq<V>, key: V -> K)
    ensures KeysOf(Values(FromList(xs, key)), key) == FromList(xs, key).keys
    ensures Distinct(KeysOf(Values(FromList(xs, key)), key))
  {
    FromListKeyed(xs, key);
  }
}
