/** A Python `dict` as the scripts use it: keys remember their insertion order
    (which decides the order of every `for k, v in d.items()` loop), and
    assigning to an existing key keeps that key where it was. */
module Dicts {

  datatype Dict<K(==), V> = Dict(keys: seq<K>, entries: map<K, V>) {

    /** Keys are distinct and are exactly the keys of the map. */
    ghost predicate Valid() {
      && (forall i, j :: 0 <= i < j < |keys| ==> keys[i] != keys[j])
      && (forall k | k in keys :: k in entries)
      && (forall k | k in entries :: k in keys)
    }

    /** `d.get(k, default)`. */
    function GetOr(k: K, default: V): V {
      if k in entries then entries[k] else default
    }

    /** `d[k] = v`: a new key goes last, an existing key keeps its place. */
    function Put(k: K, v: V): (d: Dict<K, V>)
      ensures Valid() ==> d.Valid()
      ensures d.entries == entries[k := v]
      ensures k in entries ==> d.keys == keys
      ensures k !in entries ==> d.keys == keys + [k]
    {
      Dict(if k in entries then keys else keys + [k], entries[k := v])
    }
  }

  /** `{}` */
  function Empty<K(==), V>(): (d: Dict<K, V>)
    ensures d.Valid() && d.keys == [] && d.entries == map[]
  {
    Dict([], map[])
  }

  /** Assigning a key twice leaves only the second assignment. */
  lemma PutPut<K, V>(d: Dict<K, V>, k: K, v: V, w: V)
    ensures d.Put(k, v).Put(k, w) == d.Put(k, w)
  {
    assert d.Put(k, v).Put(k, w).entries == d.Put(k, w).entries;
  }

  /** Copying the keys of `src` in order: the next key is new to `out` and
      goes last. */
  lemma CopyStep<K, V, W>(src: Dict<K, V>, out: Dict<K, W>, j: nat, w: W)
    requires src.Valid() && out.Valid() && j < |src.keys| && out.keys == src.keys[..j]
    ensures src.keys[j] in src.entries && src.keys[j] !in out.entries
    ensures out.Put(src.keys[j], w).keys == src.keys[..j + 1]
  {
    assert src.keys[..j + 1] == src.keys[..j] + [src.keys[j]];
  }

  /** Two valid dicts with the same key sequence have the same key set. */
  lemma SameKeys<K, V, W>(a: Dict<K, V>, b: Dict<K, W>)
    requires a.Valid() && b.Valid() && a.keys == b.keys
    ensures forall k :: k in a.entries <==> k in b.entries
  {
  }
}
