/** The in-memory cache: entries with an expiry time, removed one at a time or by
    key prefix.  The clock is read by the caller and passed in. */
module CacheService {
  import opened Domain
  import opened CacheKeys
  import opened Query

  datatype Entry<V> = Entry(value: V, expiresAt: int)

  /** What a lookup at time `now` finds.  (Here and below the key type is left open:
      the stored keys are strings, the interleaving model has its own.) */
  function Lookup<K(==), V>(store: map<K, Entry<V>>, key: K, now: int): Option<V> {
    if key in store && now < store[key].expiresAt then Some(store[key].value) else None
  }

  /** A lookup drops the entry it finds expired. */
  function AfterLookup<K(==), V>(store: map<K, Entry<V>>, key: K, now: int): map<K, Entry<V>> {
    if key in store && store[key].expiresAt <= now then store - {key} else store
  }

  function WithoutPrefix<V>(store: map<string, Entry<V>>, prefix: string): map<string, Entry<V>> {
    map k | k in store && !StartsWith(k, prefix) :: store[k]
  }

  /** Get or load: a live entry is handed out as it is; otherwise the value is stored, and
      lives for 30 seconds from then. */
  ghost predicate GotOrLoaded<V>(before: map<string, Entry<V>>, key: string, readAt: int,
                                 value: V, setAt: int, after: map<string, Entry<V>>) {
    if key in before && readAt < before[key].expiresAt then
      value == before[key].value && after == before
    else
      after == before[key := Entry(value, setAt + 30_000)]
  }

  class CacheService<V> {
    var store: map<string, Entry<V>>

    constructor ()
      ensures store == map[]
    {
      store := map[];
    }

    method Get(key: string, now: int) returns (found: Option<V>)
      modifies this
      ensures found == Lookup(old(store), key, now)
      ensures store == AfterLookup(old(store), key, now)
      ensures found.Some? <==> key in old(store) && now < old(store)[key].expiresAt
      ensures found.Some? ==> found.value == old(store)[key].value && store == old(store)
      ensures found.None? ==> store == old(store) - {key}
    {
      if key !in store {
        return None;
      }
      var entry := store[key];
      if entry.expiresAt <= now {
        store := store - {key};
        return None;
      }
      return Some(entry.value);
    }

    method Set(key: string, value: V, ttlMs: int, now: int)
      modifies this
      ensures store == old(store)[key := Entry(value, now + ttlMs)]
    {
      store := store[key := Entry(value, now + ttlMs)];
    }

    method Del(key: string)
      modifies this
      ensures store == old(store) - {key}
    {
      store := store - {key};
    }

    /** Removes every key that begins with `prefix`, and only those. */
    method DelByPrefix(prefix: string)
      modifies this
      ensures store == WithoutPrefix(old(store), prefix)
      ensures forall k :: k in store <==> k in old(store) && !(prefix <= k)
      ensures forall k :: k in store ==> store[k] == old(store)[k]
    {
      var keys := Enumerate(store.Keys);
      for i := 0 to |keys|
        invariant store.Keys <= old(store).Keys
        invariant forall k :: k in store ==> store[k] == old(store)[k]
        invariant forall k :: k in old(store) ==>
          (k in store <==> !(k in keys[..i] && StartsWith(k, prefix)))
      {
        if StartsWith(keys[i], prefix) {
          store := store - {keys[i]};
        }
        assert keys[..i + 1] == keys[..i] + [keys[i]];
      }
      assert keys[..|keys|] == keys;
      assert store.Keys == WithoutPrefix(old(store), prefix).Keys;
    }

    /** Get or load.  The loader reads whatever it likes outside the cache, in the
        state of the call.  The read and the fill may be apart in time. */
    method Wrap(key: string, ttlMs: int, readAt: int, loader: () ~> V, setAt: int) returns (value: V)
      requires loader.requires() && this !in loader.reads()
      modifies this
      ensures var hit := Lookup(old(store), key, readAt);
        && value == (if hit.Some? then hit.value else old(loader()))
        && store == (if hit.Some? then old(store)
                     else AfterLookup(old(store), key, readAt)[key := Entry(old(loader()), setAt + ttlMs)])
      ensures forall now :: Lookup(old(store), key, readAt).None? && now < setAt + ttlMs ==>
        Lookup(store, key, now) == Some(value)
    {
      var cached := Get(key, readAt);
      if cached.Some? {
        return cached.value;
      }
      value := loader();
      Set(key, value, ttlMs, setAt);
    }
  }
}
