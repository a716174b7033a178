/** The key handling of `MemcachedStore`: every key gets the application
    prefix (`Application.CachePrefix`, `_` by default) on the way to the
    client, and batch replies are keyed by the key with the prefix removed. */
module MemcachedStore {
  import opened Results
  import opened Text
  import Lookup

  /** The prefix used when `Application.CachePrefix` is not configured. */
  const DefaultPrefix: string := "_"

  /** Both constructors: the configured prefix, or `_` when the setting is absent. */
  function Prefix(setting: Option<string>): (p: string)
    ensures setting.None? ==> p == DefaultPrefix
    ensures setting.Some? ==> p == setting.value
  {
    setting.GetOr(DefaultPrefix)
  }

  /** `PrefixKey`: the prefix in front of the key. */
  function PrefixKey(prefix: string, key: string): (r: string)
    ensures prefix <= r && r[|prefix|..] == key
  {
    prefix + key
  }

  /** `DePrefixKey` as written: `key.Replace(prefix, "")` removes EVERY
      occurrence of the prefix, and an empty prefix is an argument error. */
  function DePrefixKey(prefix: string, key: string): (r: Result<string, Fault>)
    ensures r.Failure? <==> prefix == []
    ensures r.Failure? ==> r.error == EmptyPattern
    ensures r.Success? ==> |r.value| <= |key|
    ensures r.Success? ==> (r.value == key <==> !Occurs(prefix, key))
  {
    if prefix == [] then Failure(EmptyPattern)
    else
      DeleteShrinks(key, prefix);
      DeleteIdentity(key, prefix);
      Success(Replace(key, prefix, ""))
  }

  /** Removing the prefix from a prefixed key gives the key back exactly when
      the key itself contains no occurrence of the prefix. */
  lemma {:induction false} DePrefixRoundTrip(prefix: string, key: string)
    requires prefix != []
    ensures DePrefixKey(prefix, PrefixKey(prefix, key)) == Success(key) <==> !Occurs(prefix, key)
  {
    var full := PrefixKey(prefix, key);
    assert full != [] && prefix <= full;
    assert Replace(full, prefix, "") == Replace(key, prefix, "");
    DeleteIdentity(key, prefix);
  }

  /** With the default prefix, the underscore `CleanKey` puts in place of a
      space is removed as well: the key does not survive the round trip. */
  lemma DefaultPrefixLosesUnderscores()
    ensures CleanKey("p$a b") == "p$a_b"
    ensures PrefixKey(DefaultPrefix, "p$a_b") == "_p$a_b"
    ensures DePrefixKey(DefaultPrefix, "_p$a_b") == Success("p$ab")
  {
    CleanExample();
    DeleteExample();
  }

  lemma CleanExample()
    ensures CleanKey("p$a b") == "p$a_b"
  {
    var cleaned := CleanKey("p$a b");
    assert cleaned[3] == '_';
  }

  lemma DeleteExample()
    ensures Replace("_p$a_b", "_", "") == "p$ab"
  {
    assert "_p$a_b" == "_p$a" + "_b";
    assert "_p$a" == "_" + "p$a";
    assert "_b" == "_" + "b";
    assert "_" == ['_'] + "";
    assert "p$a" + "b" == "p$ab";
    DeleteConcat("_p$a", "_b", '_');
    DeleteConcat("_", "p$a", '_');
    DeleteConcat("_", "b", '_');
    DeleteCharStep('_', "", '_');
    DeleteAbsent("p$a", '_');
    DeleteAbsent("b", '_');
  }

  /** The evident intent of `DePrefixKey`: remove the LEADING prefix only. */
  function StripPrefix(prefix: string, key: string): (r: string)
    ensures prefix <= key ==> PrefixKey(prefix, r) == key
    ensures !(prefix <= key) ==> r == key
  {
    if prefix <= key then key[|prefix|..] else key
  }

  /** Stripping the leading prefix undoes `PrefixKey` for every key and prefix. */
  lemma StripPrefixRoundTrip(prefix: string, key: string)
    ensures StripPrefix(prefix, PrefixKey(prefix, key)) == key
  {
  }

  /** An item as the memcached client returns it: the full key and the (deserialised) data. */
  datatype Reply<V> = Reply(key: string, data: V)

  /** The client's `Get` on the server's contents: the item, or null (`None`) on a miss. */
  function ClientGet<V>(server: map<string, V>, fullKey: string): (r: Option<Reply<V>>)
    ensures r.Some? <==> fullKey in server
    ensures r.Some? ==> r.value == Reply(fullKey, server[fullKey])
  {
    if fullKey in server then Some(Reply(fullKey, server[fullKey])) else None
  }

  /** Single-key `GetAsync<T>`: null when the client reports no entry, else the item. */
  function GetOne<V>(prefix: string, server: map<string, V>, key: string): (r: Option<V>)
    ensures r.Some? <==> PrefixKey(prefix, key) in server
    ensures r.Some? ==> r.value == server[PrefixKey(prefix, key)]
  {
    match ClientGet(server, PrefixKey(prefix, key))
    case None => None
    case Some(reply) => Some(reply.data)
  }

  /** Batch `GetAsync(keys)` as written: the replies, in request order, go
      through `ToDictionary(a => DePrefixKey(a.Key), ...)`, so a missed key
      (a null reply) faults, and so does a de-prefixed key seen twice. */
  function GetManyAsWritten<V>(prefix: string, server: map<string, V>, keys: seq<string>)
    : (r: Result<map<string, V>, Fault>)
    ensures keys != [] && PrefixKey(prefix, keys[0]) !in server ==> r == Failure(NullEntry)
    ensures r.Success? ==> forall k :: k in keys ==> PrefixKey(prefix, k) in server
  {
    if keys == [] then Success(map[])
    else
      var init, last := keys[..|keys| - 1], keys[|keys| - 1];
      assert keys == init + [last];
      assert init != [] ==> init[0] == keys[0];
      assert forall k :: k in keys ==> k in init || k == last;
      match GetManyAsWritten(prefix, server, init)
      case Failure(e) => Failure(e)
      case Success(m) =>
        var full := PrefixKey(prefix, last);
        match ClientGet(server, full)
        case None => Failure(NullEntry)
        case Some(reply) =>
          assert reply.key == full && full in server;
          assert init == [] ==> last == keys[0];
          match DePrefixKey(prefix, full)
          case Failure(e) => Failure(e)
          case Success(k) =>
            if k in m then Failure(DuplicateKey(k)) else Success(m[k := reply.data])
  }

  /** With an empty prefix `Replace` rejects its pattern, so every non-empty batch faults. */
  lemma EmptyPrefixFails<V>(server: map<string, V>, keys: seq<string>)
    requires keys != []
    ensures GetManyAsWritten("", server, keys).Failure?
  {
  }

  /** A batch that asks for a never-set key faults instead of reporting it absent. */
  lemma MissingKeyFaults<V>(prefix: string, server: map<string, V>, key: string)
    requires PrefixKey(prefix, key) !in server
    ensures GetManyAsWritten(prefix, server, [key]) == Failure(NullEntry)
  {
  }

  /** Batch `GetAsync(keys)` as evidently intended: a missed key is reported
      absent, and each reply is keyed by stripping only the leading prefix,
      which gives back exactly the requested key. */
  function GetMany<V>(prefix: string, server: map<string, V>, keys: seq<string>)
    : (r: Result<map<string, Option<V>>, Fault>)
    ensures r.Success? <==> Lookup.NoRepeats(keys)
    ensures r.Failure? ==> r.error.DuplicateKey?
    ensures r.Success? ==> r.value.Keys == set k | k in keys
    ensures r.Success? ==> forall k :: k in keys ==> r.value[k] == GetOne(prefix, server, k)
  {
    if keys == [] then Success(map[])
    else
      var init, last := keys[..|keys| - 1], keys[|keys| - 1];
      assert keys == init + [last];
      Lookup.AppendNoRepeats(keys);
      match GetMany(prefix, server, init)
      case Failure(e) => Failure(e)
      case Success(m) =>
        var k := match ClientGet(server, PrefixKey(prefix, last))
                 case None => last
                 case Some(reply) => StripPrefix(prefix, reply.key);
        assert k == last;
        if k in m then Failure(DuplicateKey(k))
        else Success(m[k := GetOne(prefix, server, last)])
  }
}
