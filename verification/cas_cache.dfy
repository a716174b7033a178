/** `CasCache<T>`: a prefixed reference-type cache with check-and-set writes. */
module CasCache {
  import opened Results
  import opened Expiry
  import opened Keys
  import opened CacheCore
  import CacheStore

  type CheckResult<V> = CacheStore.CheckResult<V>

  /** `CasCache(cachePrefix)` and `CasCache(store, cachePrefix)`. */
  function New(cachePrefix: string, expirySetting: Option<string>, serializable: bool)
    : (r: Result<Cache, Fault>)
    ensures r.Success? <==> Construct(Prefixed(cachePrefix), expirySetting, serializable).Success?
    ensures r.Success? ==> r.value.strategy == Prefixed(cachePrefix)
    ensures r.Success? ==> forall key :: cachePrefix + "$" <= KeyOf(r.value, key)
  {
    Construct(Prefixed(cachePrefix), expirySetting, serializable)
  }

  /** `CasCache()`: the empty prefix, so physical keys start with `$`. */
  function NewDefault(expirySetting: Option<string>, serializable: bool): (r: Result<Cache, Fault>)
    ensures r.Success? ==> forall key :: "$" <= KeyOf(r.value, key)
  {
    New("", expirySetting, serializable)
  }

  /** `GetWithCheck`/`GetWithCheckAsync`: the item at the key's physical key
      and its check value; null and 0 when there is none. */
  function GetWithCheck<V>(c: Cache, st: Store<V>, key: string): (r: CheckResult<V>)
    ensures r.result == Get(c, st, key)
    ensures CacheStore.Valid(st) ==> (r.checkValue == 0 <==> r.result.None?)
  {
    CacheStore.GetWithCheck(st, KeyOf(c, key))
  }

  /** Conditional `Set`/`SetAsync(key, checkValue, value[, expiresIn])`: true
      and the item written (with the default expiry when none is given) iff
      `checkValue` is the current check value; false and nothing changed otherwise. */
  function CheckedSet<V>(c: Cache, st: Store<V>, key: string, checkValue: int, value: V,
                         expiresIn: Option<TimeSpan>): (r: (Store<V>, bool))
    ensures r.1 <==> checkValue == GetWithCheck(c, st, key).checkValue
    ensures r.1 ==> r.0 == CacheCore.Set(c, st, key, value, expiresIn)
    ensures !r.1 ==> r.0 == st
  {
    CacheStore.CheckAndSet(st, KeyOf(c, key), checkValue, value, ExpiryOrDefault(c, expiresIn))
  }

  /** The per-key state machine: from absent, check value 0 creates the entry;
      the check value just read succeeds and replaces the item; any other
      check value fails and leaves the store as it was. */
  lemma CheckValueProtocol<V>(c: Cache, st: Store<V>, key: string, value: V, wrong: int)
    requires CacheStore.Valid(st)
    requires wrong != GetWithCheck(c, st, key).checkValue
    ensures var seen := GetWithCheck(c, st, key).checkValue;
            var (st1, ok) := CheckedSet(c, st, key, seen, value, None);
            && ok
            && GetWithCheck(c, st1, key).result == Some(value)
            && GetWithCheck(c, st1, key).checkValue != seen
            && GetWithCheck(c, st1, key).checkValue != 0
    ensures CheckedSet(c, st, key, wrong, value, None) == (st, false)
  {
  }
}
