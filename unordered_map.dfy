/** ThreadSafeUnorderedMap (src/ThreadSafeUnorderedMap.h) without its mutex. */
module UnorderedMaps {
  import opened Util

  /**
    `emplace` on a map value: the key is added only when it is absent, so a
    present key keeps its old value; every other key is untouched.
  */
  function Emplaced<K, V>(m: map<K, V>, k: K, v: V): (r: map<K, V>)
    ensures r.Keys == m.Keys + {k}
    ensures forall j :: j in m ==> r[j] == m[j]
    ensures k !in m ==> r[k] == v
  {
    if k in m then m else m[k := v]
  }

  class UnorderedMap<K(==), V> {
    var entries: map<K, V>

    constructor ()
      ensures entries == map[]
    {
      entries := map[];
    }

    /** Inserts only when the key is absent. */
    method Emplace(k: K, v: V)
      modifies this
      ensures entries == Emplaced(old(entries), k, v)
    {
      if k !in entries {
        entries := entries[k := v];
      }
    }

    /** Removes the key if present; every other entry stays. */
    method Erase(k: K)
      modifies this
      ensures k !in entries
      ensures forall j :: j != k ==> (j in entries <==> j in old(entries))
      ensures forall j :: j != k && j in entries ==> entries[j] == old(entries)[j]
    {
      entries := entries - {k};
    }

    /** The stored value; an absent key is the out-of-range error (None). */
    method At(k: K) returns (r: Option<V>)
      ensures r.Some? <==> k in entries
      ensures r.Some? ==> r.value == entries[k]
    {
      if k in entries {
        r := Some(entries[k]);
      } else {
        r := None;
      }
    }
  }
}
