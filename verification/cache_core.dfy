/** `CacheBase<T>`: the typed façade. Every operation rewrites the logical
    key with the cache's key strategy and forwards to the store. The
    synchronous and asynchronous forms of each operation share one model. */
module CacheCore {
  import opened Results
  import opened Expiry
  import opened Keys
  import CacheStore
  import Lookup

  type Store<V> = CacheStore.Store<V>

  /** A constructed cache: its key strategy and its default expiry. */
  datatype Cache = Cache(strategy: Strategy, defaultExpiry: TimeSpan)

  /** The constructor. `expirySetting` is the `TruffleCache.ExpiryInHours`
      setting and `serializable` the verdict of `Serializer.Validate` on a
      default instance of the element type; construction fails eagerly when
      that verdict is false. The expiry is computed first, so an expiry that
      overflows is reported even for a type that is not serialisable. */
  function Construct(strategy: Strategy, expirySetting: Option<string>, serializable: bool)
    : (r: Result<Cache, Fault>)
    ensures r.Success? <==> serializable && -MaxHours <= ConfiguredHours(expirySetting) <= MaxHours
    ensures !serializable ==> r.Failure?
    ensures r.Failure? ==> r.error in {NotSerializable, ExpiryOverflow}
    ensures !(-MaxHours <= ConfiguredHours(expirySetting) <= MaxHours) ==> r == Failure(ExpiryOverflow)
    ensures !serializable && -MaxHours <= ConfiguredHours(expirySetting) <= MaxHours ==> r == Failure(NotSerializable)
    ensures r.Success? ==> r.value.strategy == strategy
    ensures r.Success? ==> r.value.defaultExpiry == Hours(ConfiguredHours(expirySetting))
    ensures r.Success? && expirySetting.None? ==> r.value.defaultExpiry == Hours(24)
  {
    match DefaultExpiry(expirySetting)
    case Failure(e) => Failure(e)
    case Success(d) =>
      if !serializable then Failure(NotSerializable) else Success(Cache(strategy, d))
  }

  /** The physical key of a logical key in this cache. */
  function KeyOf(c: Cache, key: string): string {
    PhysicalKey(c.strategy, key)
  }

  /** The expiry a write uses: the one given, or the cache's default when omitted. */
  function ExpiryOrDefault(c: Cache, expiresIn: Option<TimeSpan>): TimeSpan {
    expiresIn.GetOr(c.defaultExpiry)
  }

  /** `Set`/`SetAsync`: the item lands at the key's physical key with the given
      (or default) expiry, and no other physical key changes. */
  function Set<V>(c: Cache, st: Store<V>, key: string, value: V, expiresIn: Option<TimeSpan>)
    : (st': Store<V>)
    ensures var pk := KeyOf(c, key);
            && CacheStore.Get(st', pk) == Some(value)
            && st'.entries[pk].expiresIn == (if expiresIn.Some? then expiresIn.value else c.defaultExpiry)
            && st'.entries.Keys == st.entries.Keys + {pk}
            && forall k :: k in st.entries && k != pk ==> st'.entries[k] == st.entries[k]
    ensures CacheStore.Valid(st) ==> CacheStore.Valid(st')
  {
    CacheStore.Set(st, KeyOf(c, key), value, ExpiryOrDefault(c, expiresIn))
  }

  /** `Get`/`GetAsync`: the item at the key's physical key, `None` for null. */
  function Get<V>(c: Cache, st: Store<V>, key: string): (r: Option<V>)
    ensures r.Some? <==> KeyOf(c, key) in st.entries
    ensures r.Some? ==> r.value == st.entries[KeyOf(c, key)].value
  {
    CacheStore.Get(st, KeyOf(c, key))
  }

  /** `Remove`/`RemoveAsync`: true iff an item was stored at the key's physical key. */
  function Remove<V>(c: Cache, st: Store<V>, key: string): (r: (Store<V>, bool))
    ensures r.1 <==> KeyOf(c, key) in st.entries
    ensures r.0.entries == st.entries - {KeyOf(c, key)}
    ensures CacheStore.Valid(st) ==> CacheStore.Valid(r.0)
  {
    CacheStore.Remove(st, KeyOf(c, key))
  }

  /** Set then get returns the item; a later remove reports true and the key reads absent again. */
  lemma SetGetRemove<V>(c: Cache, st: Store<V>, key: string, value: V, expiresIn: Option<TimeSpan>)
    ensures var st1 := Set(c, st, key, value, expiresIn);
            var (st2, removed) := Remove(c, st1, key);
            Get(c, st1, key) == Some(value) && removed && Get(c, st2, key) == None
  {
  }

  /** Keys with different physical keys do not disturb each other; keys with
      the same physical key share one entry. */
  lemma SetIsolation<V>(c: Cache, st: Store<V>, key: string, other: string, value: V, expiresIn: Option<TimeSpan>)
    ensures KeyOf(c, other) != KeyOf(c, key) ==>
              Get(c, Set(c, st, key, value, expiresIn), other) == Get(c, st, other)
    ensures KeyOf(c, other) == KeyOf(c, key) ==>
              Get(c, Set(c, st, key, value, expiresIn), other) == Some(value)
  {
  }

  // ---------------------------------------------------------------------------
  // Batch get
  // ---------------------------------------------------------------------------

  /** The cache's key strategy as a function. */
  function KeyFn(s: Strategy): string -> string {
    k => PhysicalKey(s, k)
  }

  /** No two requested keys, repeated ones included, share a physical key. */
  predicate DistinctPhysical(s: Strategy, keys: seq<string>) {
    Lookup.Injective(KeyFn(s), keys)
  }

  /** The physical keys of the requested keys. */
  function PhysicalKeys(s: Strategy, keys: seq<string>): set<string> {
    set k | k in keys :: PhysicalKey(s, k)
  }

  /** `keys.ToDictionary(ProcessKey, a => a)`: the physical-to-logical lookup,
      built in order, failing on the first physical key seen twice. */
  function KeyLookup(s: Strategy, keys: seq<string>): (r: Result<map<string, string>, Fault>)
    ensures r.Success? <==> DistinctPhysical(s, keys)
    ensures r.Failure? ==> r.error.DuplicateKey? && r.error.key in PhysicalKeys(s, keys)
    ensures r.Success? ==> r.value.Keys == PhysicalKeys(s, keys)
    ensures r.Success? ==> r.value.Values == set k | k in keys
    ensures r.Success? ==> forall k :: k in keys ==> r.value[PhysicalKey(s, k)] == k
    ensures r.Success? ==> forall x :: x in r.value ==> PhysicalKey(s, r.value[x]) == x
  {
    var f := KeyFn(s);
    assert Lookup.Image(f, keys) == PhysicalKeys(s, keys);
    Lookup.Build(f, keys)
  }

  /** Batch `Get`/`GetAsync(params string[] keys)`: fails when two requested
      keys share a physical key; otherwise holds exactly the requested keys,
      each with the store's item at its physical key (`None` when absent). */
  function GetMany<V>(c: Cache, st: Store<V>, keys: seq<string>): (r: Result<map<string, Option<V>>, Fault>)
    ensures r.Success? <==> DistinctPhysical(c.strategy, keys)
    ensures r.Failure? ==> r.error.DuplicateKey?
    ensures r.Success? ==> r.value.Keys == set k | k in keys
    ensures r.Success? ==> forall k :: k in keys ==> r.value[k] == CacheStore.Get(st, KeyOf(c, k))
  {
    match KeyLookup(c.strategy, keys)
    case Failure(e) => Failure(e)
    case Success(lookup) =>
      var answer := CacheStore.GetMany(st, lookup.Keys);
      var r := Lookup.Remap(KeyFn(c.strategy), lookup, answer);
      assert r.Success?;
      r
  }

  /** Every value a batch get returns is what a single get of that key returns. */
  lemma BatchAgreesWithGet<V>(c: Cache, st: Store<V>, keys: seq<string>, k: string)
    requires GetMany(c, st, keys).Success? && k in GetMany(c, st, keys).value
    ensures GetMany(c, st, keys).value[k] == Get(c, st, k)
  {
  }

  /** A key requested twice makes the batch fail. */
  lemma RepeatedKeyFails<V>(c: Cache, st: Store<V>, keys: seq<string>, i: nat, j: nat)
    requires i < j < |keys| && keys[i] == keys[j]
    ensures GetMany(c, st, keys).Failure?
  {
  }

  /** A batch of `n` keys with distinct physical keys returns exactly `n` entries. */
  lemma BatchSize<V>(c: Cache, st: Store<V>, keys: seq<string>)
    requires DistinctPhysical(c.strategy, keys)
    ensures |GetMany(c, st, keys).value| == |keys|
  {
    Lookup.InjectiveDistinct(KeyFn(c.strategy), keys);
    Lookup.DistinctCount(keys);
  }
}
