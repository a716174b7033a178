/** `HashCache<T>`: a `Cache<T>` that hashes every logical key with MD5 first. */
module HashCache {
  import opened Results
  import opened Hex
  import opened Keys
  import opened CacheCore
  import MemcachedStore

  /** `HashCache(keyPrefix)` and `HashCache(store, keyPrefix)`: the prefix is
      forwarded unchanged and prefixing happens after hashing. */
  function New(keyPrefix: string, md5: seq<byte> -> Digest, expirySetting: Option<string>, serializable: bool)
    : (r: Result<Cache, Fault>)
    ensures r.Success? <==> Construct(Prefixed(keyPrefix), expirySetting, serializable).Success?
    ensures r.Success? ==> r.value.strategy.Hashed? && r.value.strategy.prefix == keyPrefix
    ensures r.Success? ==> forall key :: KeyOf(r.value, key) == ProcessKey(keyPrefix, GetCacheKey(md5, key))
  {
    Construct(Hashed(keyPrefix, md5), expirySetting, serializable)
  }

  /** `HashCache()`: the empty prefix. */
  function NewDefault(md5: seq<byte> -> Digest, expirySetting: Option<string>, serializable: bool)
    : (r: Result<Cache, Fault>)
    ensures r.Success? ==> r.value.strategy.Hashed? && r.value.strategy.prefix == ""
    ensures r.Success? ==> forall key :: |KeyOf(r.value, key)| == 33
  {
    New("", md5, expirySetting, serializable)
  }

  /** Whatever the logical key's length, the physical key is the prefix plus
      33 characters. `MemcachedStore` puts its own prefix in front of that,
      so with the default store prefix `_` the key sent to memcached is the
      cache prefix plus 34 characters: within memcached's 250-byte limit
      whenever the cache prefix has at most 216 ASCII characters (the hex
      digits and `$` are ASCII, one byte each). Set, get and remove work as
      for any cache. */
  lemma LongKeysWork<V>(c: Cache, st: Store<V>, key: string, item: V, storePrefix: string)
    requires c.strategy.Hashed?
    ensures |KeyOf(c, key)| == |c.strategy.prefix| + 33
    ensures |c.strategy.prefix| <= 217 ==> |KeyOf(c, key)| <= 250
    ensures |MemcachedStore.PrefixKey(storePrefix, KeyOf(c, key))| == |storePrefix| + |c.strategy.prefix| + 33
    ensures |c.strategy.prefix| <= 216 ==>
              |MemcachedStore.PrefixKey(MemcachedStore.DefaultPrefix, KeyOf(c, key))| <= 250
    ensures var st1 := CacheCore.Set(c, st, key, item, None);
            var (st2, removed) := CacheCore.Remove(c, st1, key);
            Get(c, st1, key) == Some(item) && removed && Get(c, st2, key) == None
  {
  }
}
