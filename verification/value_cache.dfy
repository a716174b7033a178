/** `ValueCache<T>`: a prefixed cache of value types, where an absent item
    reads as `default(T)`. The element type's default is the parameter `zero`. */
module ValueCache {
  import opened Results
  import opened Expiry
  import opened Keys
  import opened CacheCore
  import CacheStore

  /** `ValueCache(cachePrefix)` and `ValueCache(store, cachePrefix)`. */
  function New(cachePrefix: string, expirySetting: Option<string>, serializable: bool)
    : (r: Result<Cache, Fault>)
    ensures r.Success? <==> Construct(Prefixed(cachePrefix), expirySetting, serializable).Success?
    ensures r.Success? ==> r.value.strategy == Prefixed(cachePrefix)
    ensures r.Success? ==> r.value.defaultExpiry == Hours(ConfiguredHours(expirySetting))
  {
    Construct(Prefixed(cachePrefix), expirySetting, serializable)
  }

  /** `ValueCache()`: the empty prefix. */
  function NewDefault(expirySetting: Option<string>, serializable: bool): (r: Result<Cache, Fault>)
    ensures r.Success? ==> r.value.strategy == Prefixed("")
  {
    New("", expirySetting, serializable)
  }

  /** `Get`/`GetAsync`: the stored item, or `zero` when there is none. */
  function Get<V>(c: Cache, st: Store<V>, key: string, zero: V): (r: V)
    ensures KeyOf(c, key) !in st.entries ==> r == zero
    ensures KeyOf(c, key) in st.entries ==> r == st.entries[KeyOf(c, key)].value
  {
    CacheCore.Get(c, st, key).GetOr(zero)
  }

  /** Batch `Get`/`GetAsync`: every requested key, unset ones mapped to `zero`. */
  function GetMany<V>(c: Cache, st: Store<V>, keys: seq<string>, zero: V): (r: Result<map<string, V>, Fault>)
    ensures r.Success? <==> DistinctPhysical(c.strategy, keys)
    ensures r.Success? ==> r.value.Keys == set k | k in keys
    ensures r.Success? ==> forall k :: k in keys ==> r.value[k] == Get(c, st, k, zero)
  {
    match CacheCore.GetMany(c, st, keys)
    case Failure(e) => Failure(e)
    case Success(m) =>
      var r := map k | k in m :: m[k].GetOr(zero);
      assert r.Keys == m.Keys;
      Success(r)
  }

  /** Absence and the zero value cannot be told apart: reading a never-set
      key and reading a key set to `zero` give the same answer. */
  lemma ZeroIsAbsent<V>(c: Cache, st: Store<V>, key: string, zero: V, expiresIn: Option<TimeSpan>)
    requires KeyOf(c, key) !in st.entries
    ensures Get(c, st, key, zero) == Get(c, CacheCore.Set(c, st, key, zero, expiresIn), key, zero)
  {
  }
}
