/**
  `rusty-roll-tables`' `RollTable`: a table that owns a `HashMap` from
  roll keys to entries. The map is an object of its own, because
  `inner_mut` hands the very same map out for the caller to change.

  An iterator of keys (a `Step` range in the source) is the sequence of
  keys it produces; `insert_iter` collects it before inserting anything.
 */
module RollTableData {
  import opened Wrappers

  /** The part of `std::collections::HashMap` the table uses. */
  class HashMap<K(==), V> {
    var contents: map<K, V>

    /** `HashMap::default()`. */
    constructor Empty()
      ensures contents == map[]
    {
      contents := map[];
    }

    constructor Of(m: map<K, V>)
      ensures contents == m
    {
      contents := m;
    }

    /** `get`: the value under `k`, if there is one. */
    function Get(k: K): (r: Option<V>)
      reads this
      ensures r.Some? <==> k in contents
      ensures r.Some? ==> r.value == contents[k]
    {
      if k in contents then Some(contents[k]) else None
    }

    /** `insert`: `k` now maps to `v`, replacing any earlier value, which is returned. */
    method Insert(k: K, v: V) returns (previous: Option<V>)
      modifies this
      ensures contents == old(contents)[k := v]
      ensures previous == old(Get(k))
    {
      previous := Get(k);
      contents := contents[k := v];
    }
  }

  /** Every key in `keys`, mapped to `v`. */
  function Filled<K(==), V>(keys: seq<K>, v: V): (m: map<K, V>)
    ensures m.Keys == set k | k in keys
    ensures forall k | k in m :: m[k] == v
  {
    map k | k in keys :: v
  }

  class RollTable<K(==), V> {
    const storage: HashMap<K, V>

    /** `RollTable::new`: the table takes the map it is given as its storage. */
    constructor New(storage: HashMap<K, V>)
      ensures this.storage == storage
    {
      this.storage := storage;
    }

    /** `RollTable::default()`: a fresh, empty map. */
    constructor Default()
      ensures fresh(storage) && storage.contents == map[]
    {
      storage := new HashMap.Empty();
    }

    /** `inner`: the table's own map, for reading. */
    function Inner(): (m: HashMap<K, V>)
      reads this
      ensures m == storage
    {
      storage
    }

    /** `inner_mut`: the table's own map, for changing; changes made through it are the table's. */
    method InnerMut() returns (m: HashMap<K, V>)
      ensures m == storage
    {
      m := storage;
    }

    /**
      `insert_iter`: insert `v` under every key in turn. Each key produced
      ends up mapped to `v`, overwriting what it had; every other key keeps
      its value or its absence.
     */
    method InsertIter(keys: seq<K>, v: V)
      modifies storage
      ensures storage.contents == old(storage.contents) + Filled(keys, v)
    {
      for i := 0 to |keys|
        invariant storage.contents == old(storage.contents) + Filled(keys[..i], v)
      {
        assert keys[..i + 1] == keys[..i] + [keys[i]];
        var _ := storage.Insert(keys[i], v);
      }
      assert keys[..|keys|] == keys;
    }
  }

  /** The keys inserted map to the value inserted. */
  lemma InsertedKeys<K, V>(m: map<K, V>, keys: seq<K>, v: V, k: K)
    requires k in keys
    ensures k in m + Filled(keys, v) && (m + Filled(keys, v))[k] == v
  {
  }

  /** Any other key is as it was. */
  lemma OtherKeys<K, V>(m: map<K, V>, keys: seq<K>, v: V, k: K)
    requires k !in keys
    ensures (k in m + Filled(keys, v)) <==> k in m
    ensures k in m ==> (m + Filled(keys, v))[k] == m[k]
  {
  }

  /**
    `test_insert`: on a default table, inserting `12 -> 53` through
    `inner_mut` is seen through `inner`.
   */
  method InsertThroughInnerMut() returns (found: Option<int>)
    ensures found == Some(53)
  {
    var table := new RollTable<int, int>.Default();
    var m := table.InnerMut();
    var _ := m.Insert(12, 53);
    found := table.Inner().Get(12);
  }

  /** `test_insert_range`: after inserting 42 under `1..=10`, each of those keys gives 42. */
  method InsertRange() returns (found: seq<Option<int>>)
    ensures |found| == 10 && forall i | 0 <= i < 10 :: found[i] == Some(42)
  {
    var table := new RollTable<int, int>.Default();
    var keys := seq(10, i => i + 1);
    table.InsertIter(keys, 42);
    found := [];
    for k := 1 to 11
      invariant |found| == k - 1 && forall i | 0 <= i < k - 1 :: found[i] == Some(42)
    {
      assert keys[k - 1] == k;
      var r := table.Inner().Get(k);
      found := found + [r];
    }
  }
}
