/** An insertion-ordered map from names to values, the model of the `IndexMap`
    that holds both the aliases and the groups of a configuration.

    The order of `keys` is the iteration order; `values` is the lookup table.
    The two always describe the same set of names, and no name occurs twice in
    `keys`. */
module IndexMaps {
  import opened Wrappers

  /** No element occurs twice in `s`. */
  predicate NoDuplicates<T(==)>(s: seq<T>) {
    forall i, j :: 0 <= i < j < |s| ==> s[i] != s[j]
  }

  datatype OrderedMap<V> = OrderedMap(keys: seq<string>, values: map<string, V>)

  predicate WellFormed<V>(m: OrderedMap<V>) {
    && NoDuplicates(m.keys)
    && (forall k :: k in m.keys ==> k in m.values)
    && (forall k :: k in m.values ==> k in m.keys)
  }

  type IndexMap<V> = m: OrderedMap<V> | WellFormed(m) witness OrderedMap([], map[])

  /** `IndexMap::new()` and `clear()`: no entries. */
  function Empty<V>(): (r: IndexMap<V>)
    ensures r.keys == [] && r.values == map[]
  {
    OrderedMap([], map[])
  }

  /** `get`: the value stored under `k`, if any. */
  function Get<V>(m: IndexMap<V>, k: string): (r: Option<V>)
    ensures r.Some? <==> k in m.keys
    ensures r.Some? ==> r.value == m.values[k]
  {
    if k in m.values then Some(m.values[k]) else None
  }

  /** `insert`: a new name is appended at the end; a name already present gets
      the new value and keeps its position. */
  function Insert<V>(m: IndexMap<V>, k: string, v: V): (r: IndexMap<V>)
    ensures r.values == m.values[k := v]
    ensures k in m.values ==> r.keys == m.keys
    ensures k !in m.values ==> r.keys == m.keys + [k]
  {
    if k in m.values then
      OrderedMap(m.keys, m.values[k := v])
    else
      AppendKeepsNoDuplicates(m.keys, k);
      OrderedMap(m.keys + [k], m.values[k := v])
  }

  /** The position of `k` in `s`. */
  function IndexOf(s: seq<string>, k: string): (i: nat)
    requires k in s
    ensures i < |s| && s[i] == k
    ensures forall j :: 0 <= j < i ==> s[j] != k
  {
    if s[0] == k then 0 else 1 + IndexOf(s[1..], k)
  }

  /** `shift_remove`: the entry for `k` is deleted and every other entry keeps
      its relative order; a missing name leaves the map as it was. */
  function ShiftRemove<V>(m: IndexMap<V>, k: string): (r: IndexMap<V>)
    ensures r.values == m.values - {k}
    ensures k !in m.values ==> r == m
    ensures k in m.values ==>
      var i := IndexOf(m.keys, k); r.keys == m.keys[..i] + m.keys[i + 1..]
  {
    if k !in m.values then m
    else
      var i := IndexOf(m.keys, k);
      DeleteKeepsNoDuplicates(m.keys, i);
      OrderedMap(m.keys[..i] + m.keys[i + 1..], m.values - {k})
  }

  lemma AppendKeepsNoDuplicates(s: seq<string>, k: string)
    requires NoDuplicates(s) && k !in s
    ensures NoDuplicates(s + [k])
  {
  }

  lemma DeleteKeepsNoDuplicates(s: seq<string>, i: nat)
    requires NoDuplicates(s) && i < |s|
    ensures NoDuplicates(s[..i] + s[i + 1..])
    ensures forall x :: x in s[..i] + s[i + 1..] <==> x in s && x != s[i]
  {
    var t := s[..i] + s[i + 1..];
    assert forall a :: 0 <= a < |t| ==> t[a] == if a < i then s[a] else s[a + 1];
    forall x | x in s && x != s[i] ensures x in t {
      var a :| 0 <= a < |s| && s[a] == x;
      assert t[if a < i then a else a - 1] == x;
    }
  }

  /** Removing a name that was just inserted gives back the original map,
      order included. */
  lemma InsertThenShiftRemove<V>(m: IndexMap<V>, k: string, v: V)
    requires k !in m.values
    ensures ShiftRemove(Insert(m, k, v), k) == m
  {
    var n := Insert(m, k, v);
    assert IndexOf(n.keys, k) == |m.keys|;
    assert n.keys[..|m.keys|] == m.keys;
    assert n.values - {k} == m.values;
  }

  /** A second `insert` under the same name overrides the first and leaves
      the order the first one gave. */
  lemma InsertTwice<V>(m: IndexMap<V>, k: string, v: V, w: V)
    ensures Insert(Insert(m, k, v), k, w) == Insert(m, k, w)
  {
  }

  /** Inserting under a name that is already present never changes the
      number of entries or their order. */
  lemma InsertExistingKeepsOrder<V>(m: IndexMap<V>, k: string, v: V)
    requires k in m.values
    ensures Insert(m, k, v).keys == m.keys
    ensures forall j :: j != k ==> Get(Insert(m, k, v), j) == Get(m, j)
    ensures Get(Insert(m, k, v), k) == Some(v)
  {
  }
}
