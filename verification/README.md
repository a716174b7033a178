# TruffleCache key derivation, typed façade and check-and-set, in Dafny

TruffleCache is a .NET caching layer over memcached. A typed cache
(`Cache<T>`, `HashCache<T>`, `CasCache<T>`, `ValueCache<T>`, all built on
`CacheBase<T>`) rewrites every logical key into a physical key and forwards
the call to an `ICacheStore`. This project models three parts of it:

- **Key derivation** (modules `Text`, `Hex`, `Keys`):
  - `CleanKey` turns spaces into underscores.
  - The prefixed strategy is `prefix + "$" + ToLower(CleanKey(key))`.
  - The hashed strategy applies the prefixed strategy to the upper-case hex
    rendering of the key's MD5 digest.
  - `MemcachedStore` adds its own application prefix and takes it off again
    (module `MemcachedStore`).
- **The typed façade** (modules `Expiry`, `Lookup`, `CacheCore`, and the
  per-class modules `PlainCache`, `HashCache`, `CasCache`, `ValueCache`):
  - the default expiry, read from the `TruffleCache.ExpiryInHours` setting
    with `int.TryParse` and `TimeSpan.FromHours`;
  - construction, which fails for a non-serialisable element type;
  - forwarding of single-key operations;
  - the batch get, which builds a physical-to-logical index with
    `ToDictionary` and re-keys the store's answer through it.
- **Check-and-set** (module `CacheStore`): the store is an immutable map from
  physical key to entry, with a counter that mints check values. An absent key
  reads as null with check value 0. A conditional write succeeds only with
  the current check value.

Module `Scenarios` restates the repository's test scenarios as lemmas. It
also traces two batch-get defects of `MemcachedStore` through the façade (see
"## Findings").

Inputs the code reads from the environment become parameters:

- the `TruffleCache.ExpiryInHours` and `Application.CachePrefix` settings are
  `Option<string>` values;
- the verdict of `Serializer.Validate` is a `bool`;
- MD5 is a function `seq<byte> -> Digest`, where a digest is 16 bytes;
- `default(T)` of a value-type cache is a parameter `zero`;
- the memcached server's contents are a `map`.

The synchronous and asynchronous forms of every operation share one model.

Points where the model chooses a reading:

- The files come from different revisions:
  - `Cache.cs` overrides `KeyPrefix`, and `HashCache.cs` calls
    `base.GetKey`. Neither member exists in the `CacheBase.cs` shown, which
    declares an abstract `ProcessKey`.
  - `Cache.cs` shows no key function at all. The model gives `Cache<T>`
    the formula of TruffleCache/CasCache.cs:123,
    `prefix + "$" + ToLower(CleanKey(key))`, with the prefix kept in its
    own case. The tests pin only `prefix + "$" + key` for lower-case
    prefixes and keys without spaces or capitals
    (TruffleCache.Test/CacheBaseTests.cs:47). Whether the prefix is
    lower-cased is not pinned: lower-casing the whole physical key,
    prefix included, fits those tests equally well. For a prefix with
    capitals the model's keys for `Cache<T>` and `HashCache<T>` are
    therefore a reading, not something the shown code states.
  - It gives `HashCache<T>` the same borrowed strategy applied to the hex
    key, so the upper-case hex digits are lower-cased.
  - `CacheBase.cs:165` calls a typed batch read `cache.GetAsync<T>(keys)`,
    which the `ICacheStore.cs` shown does not declare; it declares only an
    untyped one. The typed answer of `CacheStore.GetMany`, an entry for
    every requested key with null for a missing one, is a reading too.
- A conditional write to an absent key with check value 0 creates the entry.
  An absent key reads as check value 0, and the interface's "matches the one
  already in the cache" is read that way.
- Check values are minted by a counter that starts at 1. The negative step
  of TruffleCache.Test/CasCacheTests.cs:76 uses the literal 1 as the wrong
  check value; in this model 1 is exactly the value a fresh store's first
  write receives, so there it would be accepted. Whether that step fails
  depends on the server's CAS numbering. `Scenarios.CasRoundTrip` states the
  step for every value other than the one just read.
- `ValueCache<T>` reads an absent key as `default(T)`, as its tests expect.
  The `MemcachedStore` shown returns `(T)(object)null` for a miss. For a
  value type that cast would throw, so the value cache's behaviour follows
  the tests and not that file.

## Model

| member | source | states |
|---|---|---|
| Text.CleanKey | TruffleCache/CacheBase.cs:173-176 | the result has the key's length; each space becomes `_` and every other character stays in place |
| Text.CleanKeyIdempotent | TruffleCache/CacheBase.cs:173-176 | a cleaned key holds no space, and cleaning it again changes nothing |
| Text.ReplaceChar | TruffleCache/CacheBase.cs:175 | `Replace` of one character by another keeps the length and substitutes position by position |
| Text.Lower | TruffleCache/CasCache.cs:123 | ASCII `ToLower` keeps the length and lower-cases each character independently |
| Text.DeleteShrinks | Cache/Cache/MemcachedStore.cs:131-134 | deleting a pattern never lengthens a string, and strictly shortens it when the pattern occurs |
| Text.DeleteIdentity | Cache/Cache/MemcachedStore.cs:131-134 | deleting a pattern leaves a string unchanged exactly when the pattern does not occur in it |
| Text.DeleteConcat | Cache/Cache/MemcachedStore.cs:133 | deleting a one-character pattern distributes over concatenation |
| Text.DeleteAbsent | Cache/Cache/MemcachedStore.cs:133 | deleting a character that does not occur changes nothing |
| Hex.HexUpper | TruffleCache/HashCache.cs:59-65 | each byte, in order, becomes exactly two upper-case hex digits (high nibble first), so the length doubles |
| Hex.HexUpperInjective | TruffleCache/HashCache.cs:61-64 | equal hex renderings come from equal byte strings |
| Expiry.FromHours | TruffleCache/CacheBase.cs:48 | whole hours become `h * 36_000_000_000` ticks; outside ±256,204,778 hours it is an overflow fault |
| Expiry.TryParseInt32 | TruffleCache/CacheBase.cs:44 | a missing setting fails; a parsed value is a 32-bit integer and its text holds a digit |
| Expiry.DecimalValue | TruffleCache/CacheBase.cs:44 | the decimal rendering of `n` has digit value `n` (inverse partner of the parser's digit value) |
| Expiry.ParseDecimal | TruffleCache/CacheBase.cs:44 | the decimal text of any 32-bit value, with or without a minus sign, parses back to that value |
| Expiry.DefaultExpiry | TruffleCache/CacheBase.cs:43-48 | no setting, or one without digits, gives 24 hours; otherwise the parsed hours, or the overflow fault |
| Expiry.SettingHours | TruffleCache/CacheBase.cs:43-48 | a setting holding the number `n` gives `n` hours when `TimeSpan` can hold it and the overflow fault otherwise |
| Keys.ProcessKey | TruffleCache/CasCache.cs:121-124 | the physical key starts with `prefix + "$"` (the prefix not lower-cased); then each key character is cleaned and lower-cased in place |
| Keys.ProcessKeyCollision | TruffleCache/CasCache.cs:123 | two keys share a physical key exactly when they agree position by position up to ASCII case and space versus underscore |
| Keys.CanonicalKeyVerbatim | TruffleCache.Test/CacheBaseTests.cs:43-47 | a key with no space and no capital is stored at `prefix + "$" + key` |
| Keys.SeparatorCollision | TruffleCache/CasCache.cs:123 | the `$` separator is not escaped: prefix `a` with key `$b` meets prefix `a$` with key `b` |
| Keys.AsciiBytes | TruffleCache/HashCache.cs:75 | one byte per character; characters outside ASCII become `?` |
| Keys.GetCacheKey | TruffleCache/HashCache.cs:54-66 | the hashed key is 32 upper-case hex digits whatever the key's length |
| Keys.HashKey | TruffleCache/HashCache.cs:44-47 | prefixing happens after hashing: the physical key is `prefix + "$"` and 32 more characters |
| Keys.HashKeyCollision | TruffleCache/HashCache.cs:44-76 | two keys share a hashed physical key exactly when their MD5 digests are equal |
| Keys.NonAsciiKeysCollide | TruffleCache/HashCache.cs:75 | because of the ASCII encoding, `é` and `?` get the same hashed key |
| Keys.PhysicalKey | TruffleCache/CacheBase.cs:59 | under either strategy the physical key starts with `prefix + "$"`; a hashed one has fixed length |
| Lookup.Build | TruffleCache/CacheBase.cs:164 | the index succeeds exactly when no two positions share an image, else a duplicate-key fault on an image; it maps each image back to its key and covers exactly the keys |
| Lookup.BuildOne | TruffleCache/CacheBase.cs:164 | the index of one key maps its image to it |
| Lookup.Remap | TruffleCache/CacheBase.cs:165 | re-keying succeeds exactly when every answered key is in the index, else a key-not-found fault; each answered value lands at its logical key |
| Lookup.RemapOne | TruffleCache/CacheBase.cs:165 | a one-entry answer re-keyed through a one-entry index lands at the logical key |
| Lookup.DistinctCount | TruffleCache/CacheBase.cs:164 | a key sequence without repeats has as many distinct keys as positions |
| Lookup.InjectiveDistinct | TruffleCache/CacheBase.cs:164 | keys with pairwise distinct images are pairwise distinct |
| Lookup.AppendNoRepeats | TruffleCache/CacheBase.cs:164 | a sequence is repeat-free exactly when its initial part is and the last key is new |
| CacheStore.Empty | TruffleCache/ICacheStore.cs:10-51 | the empty store holds nothing and satisfies the check-value invariant |
| CacheStore.Set | TruffleCache/ICacheStore.cs:12-21 | adds or replaces the item at the key with the given expiry and a fresh check value larger than every stored one; every other key is untouched |
| CacheStore.Get | TruffleCache/ICacheStore.cs:33-41 | the item stored at the key, null exactly when there is none |
| CacheStore.GetMany | TruffleCache/ICacheStore.cs:23-31 | an answer keyed by exactly the requested keys, each the single-key read |
| CacheStore.Remove | TruffleCache/ICacheStore.cs:43-50 | true exactly when an item was there; afterwards the key is gone and nothing else changed |
| CacheStore.GetWithCheck | TruffleCache/ICASCacheStore.cs:23-31 | the item with its check value; the check value is 0 exactly when the item is null |
| CacheStore.CheckAndSet | TruffleCache/ICASCacheStore.cs:11-21 | writes, and reports true, exactly when the check value is the current one; otherwise reports false and leaves the store as it was |
| CacheStore.StaleCheckValueFails | TruffleCache/ICASCacheStore.cs:11-21 | once the entry is written, the check value read before the write is refused |
| CacheStore.NoLostUpdate | TruffleCache/ICASCacheStore.cs:11-21 | of two writers holding the same check value, the first succeeds, the second fails, and the first one's item stays |
| CacheStore.CheckValueSurvivesOtherKeys | TruffleCache/ICASCacheStore.cs:11-31 | writes and removals at other keys leave a key's check value unchanged |
| CacheCore.Construct | TruffleCache/CacheBase.cs:39-54 | succeeds exactly when the type is serialisable and the configured hours fit a `TimeSpan`; hours that do not fit give the overflow fault whatever the type, and otherwise a non-serialisable type gives the argument fault; on success it keeps the strategy and the default expiry (24 hours with no setting) |
| CacheCore.Set | TruffleCache/CacheBase.cs:66-101 | the item lands at the key's physical key with the given expiry or the default one, and no other physical key changes |
| CacheCore.Get | TruffleCache/CacheBase.cs:128-141 | the store's item at the key's physical key, null when absent |
| CacheCore.Remove | TruffleCache/CacheBase.cs:108-121 | true exactly when the physical key held an item; afterwards that key is gone |
| CacheCore.SetGetRemove | TruffleCache/CacheBase.cs:98-141 | set then get returns the item; remove then reports true and the key reads null |
| CacheCore.SetIsolation | TruffleCache/CacheBase.cs:98-141 | a set leaves keys with other physical keys alone, and is seen through every key with the same physical key |
| CacheCore.KeyLookup | TruffleCache/CacheBase.cs:164 | the physical-to-logical index succeeds exactly when the requested keys have distinct physical keys, and then inverts the key strategy on them |
| CacheCore.GetMany | TruffleCache/CacheBase.cs:150-166 | succeeds exactly when the physical keys are distinct; then holds exactly the requested keys, each with the store's item at its physical key |
| CacheCore.BatchAgreesWithGet | TruffleCache/CacheBase.cs:128-166 | every value of a batch get is what a single get of that key returns |
| CacheCore.RepeatedKeyFails | TruffleCache/CacheBase.cs:164 | a key requested twice makes the batch fail |
| CacheCore.BatchSize | TruffleCache/CacheBase.cs:162-166 | a batch of `n` keys with distinct physical keys returns `n` entries |
| PlainCache.New | TruffleCache/Cache.cs:23-37 | the cache's prefix is exactly the one passed in, and its keys follow the prefixed strategy borrowed from `CasCache` |
| PlainCache.NewDefault | TruffleCache/Cache.cs:14-17 | the parameterless constructor uses the empty prefix, so every physical key starts with `$` |
| PlainCache.SetUsesPrefixAndDefaultExpiry | TruffleCache.Test/CacheBaseTests.cs:36-114 | with prefix `p`, a set of a plain key stores at `p + "$" + key` with 24 hours, or 48 with the setting "48" |
| PlainCache.FortyEightHours | TruffleCache.Test/CacheBaseTests.cs:81-87 | the setting "48" gives a 48-hour default expiry |
| PlainCache.NotSerializableRejected | TruffleCache.Test/CacheBaseTests.cs:29-34 | a non-serialisable element type makes construction fail, and with no expiry setting the fault is the argument error |
| HashCache.New | TruffleCache/HashCache.cs:24-37 | the prefix is forwarded unchanged and applied after hashing |
| HashCache.NewDefault | TruffleCache/HashCache.cs:15-18 | the empty prefix, so every physical key is 33 characters |
| HashCache.LongKeysWork | Cache.Test/HashCacheTests.cs:14-44 | whatever the key's length, the physical key is the prefix plus 33 characters and the key sent to memcached adds the store prefix, so with the default `_` it fits 250 characters for a cache prefix of at most 216; set, get and remove behave as for any key |
| CasCache.New | TruffleCache/CasCache.cs:28-42 | the cache uses the prefixed strategy with the given prefix, so every physical key starts with `cachePrefix + "$"` |
| CasCache.NewDefault | TruffleCache/CasCache.cs:19-22 | the parameterless constructor's physical keys start with `$` |
| CasCache.GetWithCheck | TruffleCache/CasCache.cs:51-66 | the single-key read at the physical key with its check value, 0 exactly when null |
| CasCache.CheckedSet | TruffleCache/CasCache.cs:75-116 | true exactly when the check value is current, and then the façade's set with the given or default expiry; false leaves the store unchanged |
| CasCache.CheckValueProtocol | TruffleCache/CasCache.cs:113-116 | the value just read is accepted, the new item is read back with a new non-zero check value, and any other check value changes nothing |
| ValueCache.New | TruffleCache/ValueCache.cs:26-40 | the cache uses the prefixed strategy with the given prefix and the configured default expiry |
| ValueCache.NewDefault | TruffleCache/ValueCache.cs:17-20 | the parameterless constructor uses the empty prefix |
| ValueCache.Get | TruffleCache.Test/ValueCacheTests.cs:96-100 | the stored item, or the type's default when there is none |
| ValueCache.GetMany | TruffleCache.Test/ValueCacheTests.cs:45-69 | succeeds exactly when the physical keys are distinct; then holds every requested key, an unset one with the default |
| ValueCache.ZeroIsAbsent | TruffleCache.Test/ValueCacheTests.cs:96-100 | a never-set key and a key set to the default read the same |
| MemcachedStore.Prefix | Cache/Cache/MemcachedStore.cs:31 | the configured prefix, or `_` when the setting is absent |
| MemcachedStore.PrefixKey | Cache/Cache/MemcachedStore.cs:122-125 | the prefix followed by the key, which can be read back after it |
| MemcachedStore.DePrefixKey | Cache/Cache/MemcachedStore.cs:131-134 | an empty prefix is an argument fault; otherwise the result is no longer than the key, and equals it exactly when the prefix does not occur |
| MemcachedStore.DePrefixRoundTrip | Cache/Cache/MemcachedStore.cs:122-134 | de-prefixing a prefixed key gives it back exactly when the key contains no occurrence of the prefix |
| MemcachedStore.DefaultPrefixLosesUnderscores | Cache/Cache/MemcachedStore.cs:31-134 | with the default `_`, the cleaned key `p$a_b` comes back as `p$ab` |
| MemcachedStore.StripPrefix | Cache/Cache/MemcachedStore.cs:131-134 | removing only a leading prefix is the inverse of `PrefixKey`, and other keys are left alone |
| MemcachedStore.StripPrefixRoundTrip | Cache/Cache/MemcachedStore.cs:122-134 | stripping the leading prefix undoes `PrefixKey` for every key and prefix |
| MemcachedStore.ClientGet | Cache/Cache/MemcachedStore.cs:88 | the client returns the item with its full key, or null exactly when the server has no entry |
| MemcachedStore.GetOne | Cache/Cache/MemcachedStore.cs:86-93 | a single-key get is null exactly when the prefixed key is not on the server, else the item stored there |
| MemcachedStore.GetManyAsWritten | Cache/Cache/MemcachedStore.cs:67-76 | a miss on the first key faults; a successful batch had every prefixed key on the server |
| MemcachedStore.EmptyPrefixFails | Cache/Cache/MemcachedStore.cs:133 | with an empty prefix every non-empty batch faults |
| MemcachedStore.MissingKeyFaults | Cache/Cache/MemcachedStore.cs:67-76 | a batch that asks for a never-set key faults instead of reporting it absent |
| MemcachedStore.GetMany | Cache/Cache/MemcachedStore.cs:67-76 | the corrected batch succeeds exactly when no key repeats, and then holds exactly the requested keys, each with the single-key get |
| Scenarios.CasRoundTrip | TruffleCache.Test/CasCacheTests.cs:55-90 | fresh key: null and 0; after a set: the item and a non-zero check value; a wrong check value is refused; the one read is accepted; remove gives null and 0 again |
| Scenarios.ValueRoundTrip | TruffleCache.Test/ValueCacheTests.cs:21-43 | a fresh key reads the default; set then get returns the item; remove reports true and the default is read again |
| Scenarios.BatchOfThree | Cache.Test/HashCacheTests.cs:46-70 | three keys with distinct physical keys give exactly three entries, each the single read |
| Scenarios.ValueBatchOfThree | TruffleCache.Test/ValueCacheTests.cs:45-69 | the value-cache batch of three keys holds each key's read, defaulted when absent |
| Scenarios.ValueBatchFresh | TruffleCache.Test/ValueCacheTests.cs:57-59 | three fresh keys give three entries, all the default |
| Scenarios.ValueBatchAfterSets | TruffleCache.Test/ValueCacheTests.cs:61-68 | after setting two of the keys, the batch holds the two items and the default |
| Scenarios.ReferenceBatchFresh | Cache.Test/HashCacheTests.cs:58-60 | three fresh keys give three entries, all null |
| Scenarios.ReferenceBatchAfterSets | Cache.Test/HashCacheTests.cs:62-69 | after setting two of the keys, the batch holds the two items and null |
| Scenarios.UnderscoreKey | TruffleCache/CasCache.cs:123 | the key `a b` under prefix `p` is stored at `p$a_b` |
| Scenarios.UnderscoreLookup | TruffleCache/CacheBase.cs:164 | the batch index for `a b` under prefix `p` maps `p$a_b` back to `a b` |
| Scenarios.UnderscoreAnswerAsWritten | Cache/Cache/MemcachedStore.cs:67-76 | the store as written answers the batch for `p$a_b` under `p$ab` |
| Scenarios.UnderscoreAnswerCorrected | Cache/Cache/MemcachedStore.cs:67-76 | the corrected store answers the same batch under `p$a_b` |
| Scenarios.UnderscoreRemapFails | TruffleCache/CacheBase.cs:165 | the façade's re-keying of the as-written answer faults with key-not-found |
| Scenarios.UnderscoreRemapSucceeds | TruffleCache/CacheBase.cs:165 | the façade's re-keying of the corrected answer gives the item under `a b` |
| Scenarios.CorrectedStoreServesBatch | TruffleCache/CacheBase.cs:162-166 | the corrected store answers every index the façade builds, and re-keying then holds exactly the requested keys with the store's reads |

## Left out

- Serialisation (`Serializer.cs`, `BinaryFormatter`, the `IsSerializable`
  reflection check): items are stored as values, and the validation verdict
  is a `bool` input.
- `Activator.CreateInstance<T>()` in the constructor: the element type's
  default instance is not modelled; only the verdict on it is.
- The memcached client: network calls, the `Lazy` client construction,
  `Dispose`, and connection options. This is I/O; the server is a `map`.
- Sync-over-async bridging (`Task.Run(...).Wait()` and `.Result`),
  `AsParallel` and `Task.WhenAll`. These are concurrency; every operation is
  one sequential step, and replies arrive in request order.
- Expiry as time passing: the expiry is stored with the entry but never
  consulted. The timing and load tests (`Thread.Sleep`, 5000 items within
  a second) are wall-clock behaviour of the backend.
- The test at TruffleCache.Test/CasCacheTests.cs:31-43 is not modelled. It
  fires an un-awaited set and then expects the same check value first to fail
  and then to succeed; that depends on a race.
- Culture-aware `ToLower`: only ASCII letters are lower-cased.
- `Encoding.ASCII` on UTF-16 surrogate pairs: Dafny characters are Unicode
  scalar values, and each non-ASCII one becomes a single `?`.
- MD5 internals: the digest is a function parameter returning 16 bytes
  (section 3.5 of RFC 1321).
- `int.TryParse` details beyond optional white space, an optional sign,
  decimal digits and the 32-bit range. Trailing NUL characters, which
  .NET also accepts, are not modelled.
- Which store a cache is bound to (`this.cache`, `this.store`): a cache is
  modelled apart from its store, so the store-taking and store-creating
  constructors differ only in the store the caller passes.
- Null keys and null values: these raise .NET exceptions and are not
  modelled.
- The 64-bit width of check values: tokens are minted from an unbounded
  counter, so wrap-around after 2^63 writes is not modelled.
- Expiry.TryParseInt32: its contract states only the range, the missing
  setting and that a digit is present. The full grammar is its body, and
  Expiry.ParseDecimal pins the round trip with the decimal rendering.
- MemcachedStore.GetManyAsWritten: its contract states the null-reply
  fault and what success implies, but not the whole keying. The keying is
  exhibited by Scenarios.UnderscoreAnswerAsWritten, and the evident intent
  is stated in full by MemcachedStore.GetMany.
- `TruffleCache.Example/Program.cs`: container bootstrapping and console
  output.

## Findings

| source | as written | input that shows it | evidently intended | confidence | as-written member | corrected member |
|---|---|---|---|---|---|---|
| Cache/Cache/MemcachedStore.cs:131-134 | `DePrefixKey` removes every occurrence of the prefix with `Replace`, not only the leading one. The default prefix `_` also occurs in keys `CleanKey` produced | a cache with prefix `p`, store prefix `_`: a batch get of `a b` asks for `p$a_b`; the reply key `_p$a_b` is de-prefixed to `p$ab`, which the façade's index does not hold, so `keyLookup[x.Key]` faults | remove only the leading prefix, so that the reply is keyed by the requested physical key | high, not executed | MemcachedStore.DefaultPrefixLosesUnderscores | MemcachedStore.StripPrefixRoundTrip |
| Cache/Cache/MemcachedStore.cs:67-76 | batch `GetAsync` passes every reply to `ToDictionary(a => DePrefixKey(a.Key), ...)`; for a missed key the client's reply is null, so `a.Key` faults | a batch get of any never-set key, as in Cache.Test/HashCacheTests.cs:58-60 | report a missed key as absent, as the tests expect three entries | high, not executed | MemcachedStore.MissingKeyFaults | MemcachedStore.GetMany |
