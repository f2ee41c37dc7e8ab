/** The static ConcurrentDictionary<Type, Type> caches of the core and the one
    operation they are used with, GetOrAdd, seen sequentially. */
module TypeCaches {
  import opened Abstractions

  /** The value GetOrAdd returns: the stored entry if there is one, otherwise the
      value the factory created. */
  function CacheLookup(m: map<Type, Type>, key: Type, created: Type): Type
  {
    if key in m then m[key] else created
  }

  /** The map after GetOrAdd: the created value is stored only when the key is absent. */
  function CacheInsert(m: map<Type, Type>, key: Type, created: Type): (grown: map<Type, Type>)
    ensures grown.Keys == m.Keys + {key}
    ensures forall k | k in m :: grown[k] == m[k]
    ensures grown[key] == CacheLookup(m, key, created)
  {
    if key in m then m else m[key := created]
  }

  /** grown keeps every key of m with its value: a cache only grows. */
  ghost predicate Extends(m: map<Type, Type>, grown: map<Type, Type>)
  {
    m.Keys <= grown.Keys && forall k | k in m :: grown[k] == m[k]
  }

  lemma CacheInsertExtends(m: map<Type, Type>, key: Type, created: Type)
    ensures Extends(m, CacheInsert(m, key, created))
  {
  }

  /** Every entry of the cache is what `factory` makes of its key. */
  ghost predicate Coherent(m: map<Type, Type>, factory: Type -> Type)
  {
    forall k | k in m :: m[k] == factory(k)
  }

  /** A second GetOrAdd for a key returns what the first returned, whatever its
      factory would create, and leaves the map as the first left it. */
  lemma GetOrAddIdempotent(m: map<Type, Type>, key: Type, first: Type, second: Type)
    ensures CacheLookup(CacheInsert(m, key, first), key, second) == CacheLookup(m, key, first)
    ensures CacheInsert(CacheInsert(m, key, first), key, second) == CacheInsert(m, key, first)
  {
  }

  /** A cache only ever filled by one factory keeps every entry equal to what that
      factory makes, so a lookup returns the factory's value. */
  lemma CoherentGetOrAdd(m: map<Type, Type>, factory: Type -> Type, key: Type)
    requires Coherent(m, factory)
    ensures Coherent(CacheInsert(m, key, factory(key)), factory)
    ensures CacheLookup(m, key, factory(key)) == factory(key)
  {
  }

  class TypeCache {
    var entries: map<Type, Type>

    constructor ()
      ensures entries == map[]
    {
      entries := map[];
    }

    /** ConcurrentDictionary.GetOrAdd: return the entry for `key`, creating and
        storing it with `factory` only if there is none. Entries are never
        overwritten or removed. */
    method GetOrAdd(key: Type, factory: Type -> Type) returns (value: Type)
      modifies this
      ensures value == CacheLookup(old(entries), key, factory(key))
      ensures entries == CacheInsert(old(entries), key, factory(key))
      ensures old(entries).Keys <= entries.Keys
      ensures forall k | k in old(entries) :: entries[k] == old(entries)[k]
    {
      if key in entries {
        value := entries[key];
      } else {
        value := factory(key);
        entries := entries[key := value];
      }
    }
  }
}
