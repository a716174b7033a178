/** `Cache<T>`: a reference-type cache whose key prefix is given on construction. */
module PlainCache {
  import opened Results
  import opened Expiry
  import opened Keys
  import opened CacheCore

  /** `Cache(keyPrefix)` and `Cache(store, keyPrefix)`: `KeyPrefix` is exactly `keyPrefix`. */
  function New(keyPrefix: string, expirySetting: Option<string>, serializable: bool)
    : (r: Result<Cache, Fault>)
    ensures r.Success? <==> Construct(Prefixed(keyPrefix), expirySetting, serializable).Success?
    ensures r.Success? ==> r.value.strategy == Prefixed(keyPrefix)
    ensures r.Success? ==> forall key :: KeyOf(r.value, key) == ProcessKey(keyPrefix, key)
  {
    Construct(Prefixed(keyPrefix), expirySetting, serializable)
  }

  /** `Cache()`: the empty prefix, so every physical key starts with `$`. */
  function NewDefault(expirySetting: Option<string>, serializable: bool): (r: Result<Cache, Fault>)
    ensures r.Success? <==> New("", expirySetting, serializable).Success?
    ensures r.Success? ==> r.value.strategy == Prefixed("")
    ensures r.Success? ==> forall key :: "$" <= KeyOf(r.value, key)
  {
    New("", expirySetting, serializable)
  }

  /** A set without expiry, on a key with no space and no capital, stores the
      item at `keyPrefix + "$" + key` with 24 hours when the expiry setting is
      absent, or with 48 hours when it is "48". */
  lemma SetUsesPrefixAndDefaultExpiry<V>(keyPrefix: string, key: string, item: V, st: Store<V>, hours48: bool)
    requires IsCanonical(key)
    ensures var setting := if hours48 then Some("48") else None;
            var c := New(keyPrefix, setting, true);
            && c.Success?
            && var st' := CacheCore.Set(c.value, st, key, item, None);
               var pk := keyPrefix + "$" + key;
               && pk in st'.entries
               && st'.entries[pk].value == item
               && st'.entries[pk].expiresIn == Hours(if hours48 then 48 else 24)
  {
    var setting := if hours48 then Some("48") else None;
    FortyEightHours();
    assert DefaultExpiry(setting) == Success(Hours(if hours48 then 48 else 24));
    var c := New(keyPrefix, setting, true);
    assert c.Success? && c.value.defaultExpiry == Hours(if hours48 then 48 else 24);
    CanonicalKeyVerbatim(keyPrefix, key);
    assert KeyOf(c.value, key) == keyPrefix + "$" + key;
  }

  /** The setting "48" gives 48 hours. */
  lemma FortyEightHours()
    ensures DefaultExpiry(Some("48")) == Success(Hours(48))
  {
    assert Decimal(4) == "4";
    assert Decimal(48) == Decimal(4) + "8" == "48";
    SettingHours(48);
  }

  /** A cache that cannot serialise its element type is never constructed;
      with no expiry setting the fault is the argument error. */
  lemma NotSerializableRejected(keyPrefix: string, expirySetting: Option<string>)
    ensures New(keyPrefix, expirySetting, false).Failure?
    ensures New(keyPrefix, None, false) == Failure(NotSerializable)
  {
  }
}
