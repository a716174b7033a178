/** The scenarios the repository's tests exercise, and the two batch-get
    defects of the Memcached store traced through the façade. */
module Scenarios {
  import opened Results
  import opened Text
  import opened Keys
  import opened CacheCore
  import CacheStore
  import CasCache
  import ValueCache
  import MemcachedStore
  import Lookup

  /** The check-and-set scenario: a fresh key reads null with check value 0;
      after a plain set it reads the item with a non-zero check value; any
      other check value is refused and changes nothing; the one just read
      is accepted; remove reports true and the key reads null and 0 again. */
  lemma CasRoundTrip<V>(c: Cache, st: Store<V>, key: string, item: V)
    requires CacheStore.Valid(st) && KeyOf(c, key) !in st.entries
    ensures CasCache.GetWithCheck(c, st, key) == CacheStore.CheckResult(None, 0)
    ensures var st1 := CacheCore.Set(c, st, key, item, None);
            var seen := CasCache.GetWithCheck(c, st1, key);
            && seen.result == Some(item) && seen.checkValue != 0
            && (forall w :: w != seen.checkValue ==> CasCache.CheckedSet(c, st1, key, w, item, None) == (st1, false))
            && var (st2, ok) := CasCache.CheckedSet(c, st1, key, seen.checkValue, item, None);
               && ok
               && var (st3, removed) := CacheCore.Remove(c, st2, key);
                  removed && CasCache.GetWithCheck(c, st3, key) == CacheStore.CheckResult(None, 0)
  {
    var st1 := CacheCore.Set(c, st, key, item, None);
    var seen := CasCache.GetWithCheck(c, st1, key);
    var (st2, ok) := CasCache.CheckedSet(c, st1, key, seen.checkValue, item, None);
    assert CacheStore.Valid(st2);
  }

  /** A value cache: a fresh key reads the zero value; set then get returns
      the item; remove reports true and the key reads zero again. */
  lemma ValueRoundTrip<V>(c: Cache, st: Store<V>, key: string, item: V, zero: V)
    requires KeyOf(c, key) !in st.entries
    ensures ValueCache.Get(c, st, key, zero) == zero
    ensures var st1 := CacheCore.Set(c, st, key, item, None);
            var (st2, removed) := CacheCore.Remove(c, st1, key);
            ValueCache.Get(c, st1, key, zero) == item && removed && ValueCache.Get(c, st2, key, zero) == zero
  {
  }

  /** The keys of a three-key batch. */
  lemma SetOfThree(a: string, b: string, c: string)
    ensures (set k | k in [a, b, c]) == {a, b, c}
  {
    var keys := [a, b, c];
    assert forall k :: k in keys <==> k == a || k == b || k == c;
  }

  /** A map over three distinct keys is the map display of its three entries. */
  lemma MapOfThree<U>(m: map<string, U>, k1: string, k2: string, k3: string)
    requires m.Keys == {k1, k2, k3}
    requires k1 != k2 && k1 != k3 && k2 != k3
    ensures m == map[k1 := m[k1], k2 := m[k2], k3 := m[k3]]
  {
  }

  /** Three keys with pairwise distinct physical keys form a valid batch. */
  lemma ThreeKeys(c: Cache, k1: string, k2: string, k3: string)
    requires KeyOf(c, k1) != KeyOf(c, k2) && KeyOf(c, k1) != KeyOf(c, k3) && KeyOf(c, k2) != KeyOf(c, k3)
    ensures DistinctPhysical(c.strategy, [k1, k2, k3])
    ensures k1 != k2 && k1 != k3 && k2 != k3
  {
    var f := KeyFn(c.strategy);
    assert f(k1) == KeyOf(c, k1) && f(k2) == KeyOf(c, k2) && f(k3) == KeyOf(c, k3);
    Lookup.InjectiveThree(f, k1, k2, k3);
  }

  /** Three keys with pairwise distinct physical keys form a valid batch
      whose answer holds exactly those three keys, each with its own read. */
  lemma BatchOfThree<V>(c: Cache, st: Store<V>, k1: string, k2: string, k3: string)
    requires KeyOf(c, k1) != KeyOf(c, k2) && KeyOf(c, k1) != KeyOf(c, k3) && KeyOf(c, k2) != KeyOf(c, k3)
    ensures CacheCore.GetMany(c, st, [k1, k2, k3])
              == Success(map[k1 := CacheCore.Get(c, st, k1), k2 := CacheCore.Get(c, st, k2), k3 := CacheCore.Get(c, st, k3)])
  {
    ThreeKeys(c, k1, k2, k3);
    SetOfThree(k1, k2, k3);
    var keys := [k1, k2, k3];
    var r := CacheCore.GetMany(c, st, keys);
    assert keys[0] == k1 && keys[1] == k2 && keys[2] == k3;
    MapOfThree(r.value, k1, k2, k3);
  }

  /** The value-cache batch over the same three keys: each read mapped to `zero` when absent. */
  lemma ValueBatchOfThree<V>(c: Cache, st: Store<V>, k1: string, k2: string, k3: string, zero: V)
    requires KeyOf(c, k1) != KeyOf(c, k2) && KeyOf(c, k1) != KeyOf(c, k3) && KeyOf(c, k2) != KeyOf(c, k3)
    ensures ValueCache.GetMany(c, st, [k1, k2, k3], zero)
              == Success(map[k1 := ValueCache.Get(c, st, k1, zero), k2 := ValueCache.Get(c, st, k2, zero),
                             k3 := ValueCache.Get(c, st, k3, zero)])
  {
    ThreeKeys(c, k1, k2, k3);
    SetOfThree(k1, k2, k3);
    var keys := [k1, k2, k3];
    var r := ValueCache.GetMany(c, st, keys, zero);
    assert keys[0] == k1 && keys[1] == k2 && keys[2] == k3;
    MapOfThree(r.value, k1, k2, k3);
  }

  /** A batch of three fresh keys holds three entries, all zero. */
  lemma ValueBatchFresh<V>(c: Cache, st: Store<V>, k1: string, k2: string, k3: string, zero: V)
    requires KeyOf(c, k1) != KeyOf(c, k2) && KeyOf(c, k1) != KeyOf(c, k3) && KeyOf(c, k2) != KeyOf(c, k3)
    requires KeyOf(c, k1) !in st.entries && KeyOf(c, k2) !in st.entries && KeyOf(c, k3) !in st.entries
    ensures ValueCache.GetMany(c, st, [k1, k2, k3], zero) == Success(map[k1 := zero, k2 := zero, k3 := zero])
  {
    ValueBatchOfThree(c, st, k1, k2, k3, zero);
    assert ValueCache.Get(c, st, k1, zero) == zero;
    assert ValueCache.Get(c, st, k2, zero) == zero;
    assert ValueCache.Get(c, st, k3, zero) == zero;
  }

  /** After two of the three keys are set, the batch still holds three
      entries: the two items and the zero value. */
  lemma ValueBatchAfterSets<V>(c: Cache, st: Store<V>, k1: string, k2: string, k3: string, i1: V, i2: V, zero: V)
    requires KeyOf(c, k1) != KeyOf(c, k2) && KeyOf(c, k1) != KeyOf(c, k3) && KeyOf(c, k2) != KeyOf(c, k3)
    requires KeyOf(c, k3) !in st.entries
    ensures var st2 := CacheCore.Set(c, CacheCore.Set(c, st, k1, i1, None), k2, i2, None);
            ValueCache.GetMany(c, st2, [k1, k2, k3], zero) == Success(map[k1 := i1, k2 := i2, k3 := zero])
  {
    var st2 := CacheCore.Set(c, CacheCore.Set(c, st, k1, i1, None), k2, i2, None);
    ValueBatchOfThree(c, st2, k1, k2, k3, zero);
  }

  /** The same for a reference-type cache, where fresh keys read null. */
  lemma ReferenceBatchFresh<V>(c: Cache, st: Store<V>, k1: string, k2: string, k3: string)
    requires KeyOf(c, k1) != KeyOf(c, k2) && KeyOf(c, k1) != KeyOf(c, k3) && KeyOf(c, k2) != KeyOf(c, k3)
    requires KeyOf(c, k1) !in st.entries && KeyOf(c, k2) !in st.entries && KeyOf(c, k3) !in st.entries
    ensures CacheCore.GetMany(c, st, [k1, k2, k3]) == Success(map[k1 := None, k2 := None, k3 := None])
  {
    BatchOfThree(c, st, k1, k2, k3);
  }

  lemma ReferenceBatchAfterSets<V>(c: Cache, st: Store<V>, k1: string, k2: string, k3: string, i1: V, i2: V)
    requires KeyOf(c, k1) != KeyOf(c, k2) && KeyOf(c, k1) != KeyOf(c, k3) && KeyOf(c, k2) != KeyOf(c, k3)
    requires KeyOf(c, k3) !in st.entries
    ensures var st2 := CacheCore.Set(c, CacheCore.Set(c, st, k1, i1, None), k2, i2, None);
            CacheCore.GetMany(c, st2, [k1, k2, k3]) == Success(map[k1 := Some(i1), k2 := Some(i2), k3 := None])
  {
    var st2 := CacheCore.Set(c, CacheCore.Set(c, st, k1, i1, None), k2, i2, None);
    BatchOfThree(c, st2, k1, k2, k3);
  }

  /** The store's answer, as the façade receives it: every item present. */
  function Present<V>(m: map<string, V>): (r: map<string, Option<V>>)
    ensures r.Keys == m.Keys
    ensures forall k :: k in m ==> r[k] == Some(m[k])
  {
    map k | k in m :: Some(m[k])
  }

  /** The physical key of "a b" under prefix "p". */
  lemma UnderscoreKey()
    ensures PhysicalKey(Prefixed("p"), "a b") == "p$a_b"
  {
    assert CleanKey("a b") == "a_b";
    assert Lower("a_b") == "a_b";
  }

  /** The logical key "a b" in a cache with prefix "p" is stored under "p$a_b". */
  lemma UnderscoreLookup()
    ensures KeyLookup(Prefixed("p"), ["a b"]) == Success(map["p$a_b" := "a b"])
  {
    UnderscoreKey();
    var f := KeyFn(Prefixed("p"));
    Lookup.BuildOne(f, "a b");
    assert f("a b") == "p$a_b";
  }

  /** Over a Memcached store with the default prefix, the store as written
      answers the batch for "p$a_b" under "p$ab". */
  lemma UnderscoreAnswerAsWritten<V>(item: V)
    ensures MemcachedStore.GetManyAsWritten(MemcachedStore.DefaultPrefix, map["_p$a_b" := item], ["p$a_b"])
              == Success(map["p$ab" := item])
  {
    MemcachedStore.DefaultPrefixLosesUnderscores();
    assert ["p$a_b"][..0] == [];
  }

  /** The corrected store answers the same batch under "p$a_b". */
  lemma UnderscoreAnswerCorrected<V>(item: V)
    ensures MemcachedStore.GetMany(MemcachedStore.DefaultPrefix, map["_p$a_b" := item], ["p$a_b"])
              == Success(map["p$a_b" := Some(item)])
  {
    assert MemcachedStore.PrefixKey("_", "p$a_b") == "_p$a_b";
    var fixed := MemcachedStore.GetMany(MemcachedStore.DefaultPrefix, map["_p$a_b" := item], ["p$a_b"]);
    assert fixed.value.Keys == {"p$a_b"};
  }

  /** The façade's re-keying of the as-written answer faults. */
  lemma UnderscoreRemapFails<V>(item: V)
    ensures var lookup := KeyLookup(Prefixed("p"), ["a b"]);
            lookup.Success? && Lookup.Remap(KeyFn(Prefixed("p")), lookup.value, Present(map["p$ab" := item])) == Failure(KeyNotFound)
  {
    UnderscoreLookup();
    assert "p$ab" in Present(map["p$ab" := item]);
  }

  /** The façade's re-keying of the corrected answer gives the logical key. */
  lemma UnderscoreRemapSucceeds<V>(item: V)
    ensures var lookup := KeyLookup(Prefixed("p"), ["a b"]);
            lookup.Success? && Lookup.Remap(KeyFn(Prefixed("p")), lookup.value, map["p$a_b" := Some(item)]) == Success(map["a b" := Some(item)])
  {
    UnderscoreLookup();
    UnderscoreKey();
    Lookup.RemapOne(KeyFn(Prefixed("p")), "p$a_b", "a b", Some(item));
  }


  /** The corrected store serves every batch the façade can issue: asked for
      the lookup's physical keys, in any order, it answers every one, and the
      façade's re-keying then holds exactly the requested logical keys. */
  lemma CorrectedStoreServesBatch<V>(c: Cache, prefix: string, server: map<string, V>,
                                     keys: seq<string>, ks: seq<string>)
    requires KeyLookup(c.strategy, keys).Success?
    requires forall i, j :: 0 <= i < j < |ks| ==> ks[i] != ks[j]
    requires (set k | k in ks) == KeyLookup(c.strategy, keys).value.Keys
    ensures var answer := MemcachedStore.GetMany(prefix, server, ks);
            && answer.Success?
            && var r := Lookup.Remap(KeyFn(c.strategy), KeyLookup(c.strategy, keys).value, answer.value);
               && r.Success?
               && r.value.Keys == set k | k in keys
               && forall k :: k in keys ==> r.value[k] == MemcachedStore.GetOne(prefix, server, KeyOf(c, k))
  {
    var lookup := KeyLookup(c.strategy, keys).value;
    var answer := MemcachedStore.GetMany(prefix, server, ks);
    assert answer.value.Keys == lookup.Keys;
    var r := Lookup.Remap(KeyFn(c.strategy), lookup, answer.value);
    forall k | k in keys
      ensures r.value[k] == MemcachedStore.GetOne(prefix, server, KeyOf(c, k))
    {
      assert lookup[KeyOf(c, k)] == k;
      assert KeyOf(c, k) in ks;
    }
  }
}
