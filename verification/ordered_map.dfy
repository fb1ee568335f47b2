/** Insertion-ordered maps, the model of Python's `dict`, `Counter` and
    `defaultdict`: a key sequence recording first-insertion order plus a map
    holding the current values. Assigning to an existing key replaces its value
    and keeps its position. Assigning to a new key appends it. */
module OrderedMaps {

  datatype OMap<K, V> = OMap(keys: seq<K>, entries: map<K, V>)

  predicate Distinct<K(==)>(ks: seq<K>) {
    forall i, j :: 0 <= i < j < |ks| ==> ks[i] != ks[j]
  }

  /** The key sequence lists every key of the map exactly once. */
  ghost predicate Valid<K(!new), V>(m: OMap<K, V>) {
    && Distinct(m.keys)
    && (forall k :: k in m.entries <==> k in m.keys)
  }

  function Empty<K(!new), V>(): (m: OMap<K, V>)
    ensures Valid(m) && |m.keys| == 0
  {
    OMap([], map[])
  }

  /** Python `m.get(k, default)`. For a `Counter` or `defaultdict`, `m[k]`
      with the zero value as default. */
  function Get<K, V>(m: OMap<K, V>, k: K, default: V): V {
    if k in m.entries then m.entries[k] else default
  }

  /** Python `m[k] = v`. Afterwards `k` maps to `v`, every other key is
      unchanged, and the key order of `m` survives as a prefix. */
  function Put<K(!new), V>(m: OMap<K, V>, k: K, v: V): (r: OMap<K, V>)
    ensures Valid(m) ==> Valid(r)
    ensures k in r.entries && r.entries[k] == v
    ensures forall k' :: k' != k ==> (k' in r.entries <==> k' in m.entries)
    ensures forall k' :: k' != k && k' in m.entries ==> r.entries[k'] == m.entries[k']
    ensures r.keys == if k in m.entries then m.keys else m.keys + [k]
  {
    if k in m.entries then
      OMap(m.keys, m.entries[k := v])
    else
      OMap(m.keys + [k], m.entries[k := v])
  }

  /** Reading back after an assignment: the assigned key gives the new
      value, any other key what it gave before. */
  lemma GetPut<K(!new), V>(m: OMap<K, V>, k: K, v: V, j: K, default: V)
    ensures Get(Put(m, k, v), j, default) == if j == k then v else Get(m, j, default)
    ensures j in Put(m, k, v).entries <==> j == k || j in m.entries
  {
  }

  /** The first `n` entries of `m`, each value passed through `f`. */
  function MapFirst<K(!new), V, W>(m: OMap<K, V>, f: V -> W, n: nat): (r: OMap<K, W>)
    requires Valid(m) && n <= |m.keys|
    ensures Valid(r)
    ensures r.keys == m.keys[..n]
    ensures forall k :: k in r.entries ==> k in m.entries && r.entries[k] == f(m.entries[k])
    decreases n
  {
    if n == 0 then Empty()
    else
      var prev := MapFirst(m, f, n - 1);
      var k := m.keys[n - 1];
      assert m.keys[..n] == m.keys[..n - 1] + [k];
      Put(prev, k, f(m.entries[k]))
  }

  /** `{k: f(v) for k, v in m.items()}`: the same keys in the same order,
      each value passed through `f`. */
  function MapValues<K(!new), V, W>(m: OMap<K, V>, f: V -> W): (r: OMap<K, W>)
    requires Valid(m)
    ensures Valid(r)
    ensures r.keys == m.keys
    ensures forall k :: k in r.entries <==> k in m.entries
    ensures forall k :: k in r.entries ==> r.entries[k] == f(m.entries[k])
  {
    assert m.keys[..|m.keys|] == m.keys;
    MapFirst(m, f, |m.keys|)
  }

}
