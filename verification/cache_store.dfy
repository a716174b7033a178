/** The store contracts `ICacheStore` and `ICASCacheStore` as one immutable
    state: a map from physical key to entry, plus the counter that mints
    check values. */
module CacheStore {
  import opened Results
  import opened Expiry

  /** One stored item with its check value and the expiry it was written with. */
  datatype Entry<V> = Entry(value: V, token: nat, expiresIn: TimeSpan)

  /** The store state; `nextToken` is the check value the next write mints. */
  datatype Store<V> = Store(entries: map<string, Entry<V>>, nextToken: nat)

  /** `CheckResult<T>`: the item (or `None` for null) and its check value. */
  datatype CheckResult<V> = CheckResult(result: Option<V>, checkValue: int)

  /** Every stored check value is non-zero and older than the next one minted. */
  ghost predicate Valid<V>(st: Store<V>) {
    && st.nextToken >= 1
    && forall k :: k in st.entries ==> 1 <= st.entries[k].token < st.nextToken
  }

  /** A store holding nothing. */
  function Empty<V>(): (st: Store<V>)
    ensures Valid(st) && st.entries == map[]
  {
    Store(map[], 1)
  }

  /** `SetAsync(key, value, expiresIn)`: adds or replaces the item at `key`
      with a freshly minted check value; every other key is untouched. */
  function Set<V>(st: Store<V>, key: string, value: V, expiresIn: TimeSpan): (st': Store<V>)
    ensures st'.entries.Keys == st.entries.Keys + {key}
    ensures st'.entries[key].value == value && st'.entries[key].expiresIn == expiresIn
    ensures forall k :: k in st.entries && k != key ==> st'.entries[k] == st.entries[k]
    ensures Valid(st) ==> Valid(st')
    ensures Valid(st) ==> forall k :: k in st.entries ==> st.entries[k].token < st'.entries[key].token
  {
    Store(st.entries[key := Entry(value, st.nextToken, expiresIn)], st.nextToken + 1)
  }

  /** `GetAsync<T>(key)`: the item stored at `key`, `None` (null) when there is none. */
  function Get<V>(st: Store<V>, key: string): (r: Option<V>)
    ensures r.Some? <==> key in st.entries
    ensures r.Some? ==> r.value == st.entries[key].value
  {
    if key in st.entries then Some(st.entries[key].value) else None
  }

  /** Batch `GetAsync(keys)`: an answer for every requested key, absent ones as `None`. */
  function GetMany<V>(st: Store<V>, keys: set<string>): (r: map<string, Option<V>>)
    ensures r.Keys == keys
    ensures forall k :: k in keys ==> r[k] == Get(st, k)
  {
    map k | k in keys :: Get(st, k)
  }

  /** `RemoveAsync(key)`: drops the item; true iff there was one to drop. */
  function Remove<V>(st: Store<V>, key: string): (r: (Store<V>, bool))
    ensures r.1 <==> key in st.entries
    ensures r.0.entries == st.entries - {key}
    ensures Valid(st) ==> Valid(r.0)
  {
    (Store(st.entries - {key}, st.nextToken), key in st.entries)
  }

  /** `GetWithCheckAsync<T>(key)`: the item with its check value; 0 when absent. */
  function GetWithCheck<V>(st: Store<V>, key: string): (r: CheckResult<V>)
    ensures r.result == Get(st, key)
    ensures Valid(st) ==> (r.checkValue == 0 <==> r.result.None?)
    ensures r.result.Some? ==> r.checkValue == st.entries[key].token
  {
    if key in st.entries then CheckResult(Some(st.entries[key].value), st.entries[key].token)
    else CheckResult(None, 0)
  }

  /** Conditional `SetAsync(key, checkValue, value, expiresIn)`: writes only
      when `checkValue` is the entry's current check value (0 for an absent
      entry) and reports whether it wrote; a mismatch is a result, not a fault. */
  function CheckAndSet<V>(st: Store<V>, key: string, checkValue: int, value: V, expiresIn: TimeSpan)
    : (r: (Store<V>, bool))
    ensures r.1 <==> checkValue == GetWithCheck(st, key).checkValue
    ensures r.1 ==> r.0 == Set(st, key, value, expiresIn)
    ensures !r.1 ==> r.0 == st
  {
    var current := if key in st.entries then st.entries[key].token else 0;
    if checkValue == current then (Set(st, key, value, expiresIn), true) else (st, false)
  }

  /** A check value is single-use: once the entry is written, the value read
      before the write no longer matches, whoever presents it. */
  lemma StaleCheckValueFails<V>(st: Store<V>, key: string, v: V, e: TimeSpan, v': V, e': TimeSpan)
    requires Valid(st)
    ensures var seen := GetWithCheck(st, key).checkValue;
            !CheckAndSet(Set(st, key, v, e), key, seen, v', e').1
  {
  }

  /** Two writers that read the same check value: the first conditional write
      wins and the second fails, leaving the first one's item in place. */
  lemma NoLostUpdate<V>(st: Store<V>, key: string, mine: V, theirs: V, e: TimeSpan)
    requires Valid(st)
    ensures var seen := GetWithCheck(st, key).checkValue;
            var (st1, first) := CheckAndSet(st, key, seen, mine, e);
            var (st2, second) := CheckAndSet(st1, key, seen, theirs, e);
            first && !second && Get(st2, key) == Some(mine)
  {
  }

  /** Writes and removals at other keys leave a check value usable. */
  lemma CheckValueSurvivesOtherKeys<V>(st: Store<V>, key: string, other: string, v: V, e: TimeSpan)
    requires Valid(st) && other != key
    ensures var seen := GetWithCheck(st, key).checkValue;
            && GetWithCheck(Set(st, other, v, e), key).checkValue == seen
            && GetWithCheck(Remove(st, other).0, key).checkValue == seen
  {
  }
}
