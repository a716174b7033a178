/** `keys.ToDictionary(f, a => a)`: the index from each key's image under a
    key function back to the key, as the façade's batch get builds it. The
    key function is a parameter, so these facts hold for every key strategy. */
module Lookup {
  import opened Results

  /** No two positions of `keys`, repeated keys included, share an image. */
  predicate Injective(f: string -> string, keys: seq<string>) {
    forall i, j :: 0 <= i < j < |keys| ==> f(keys[i]) != f(keys[j])
  }

  /** The images of the keys. */
  function Image(f: string -> string, keys: seq<string>): set<string> {
    set k | k in keys :: f(k)
  }

  /** The index, built in order, failing on the first image seen twice. */
  function Build(f: string -> string, keys: seq<string>): (r: Result<map<string, string>, Fault>)
    ensures r.Success? <==> Injective(f, keys)
    ensures r.Failure? ==> r.error.DuplicateKey? && r.error.key in Image(f, keys)
    ensures r.Success? ==> r.value.Keys == Image(f, keys)
    ensures r.Success? ==> r.value.Values == set k | k in keys
    ensures r.Success? ==> forall k :: k in keys ==> r.value[f(k)] == k
    ensures r.Success? ==> forall x :: x in r.value ==> f(r.value[x]) == x
  {
    if keys == [] then Success(map[])
    else
      var init, last := keys[..|keys| - 1], keys[|keys| - 1];
      AppendKey(f, keys);
      match Build(f, init)
      case Failure(e) => Failure(e)
      case Success(m) =>
        var x := f(last);
        if x in m then
          Failure(DuplicateKey(x))
        else
          BuildStep(f, init, last, m);
          Success(m[x := last])
  }

  /** The index of a single key. */
  lemma BuildOne(f: string -> string, k: string)
    ensures Build(f, [k]) == Success(map[f(k) := k])
  {
    assert [k][..0] == [];
  }

  /** Adding one more key with a fresh image keeps the index's properties. */
  lemma BuildStep(f: string -> string, init: seq<string>, last: string, m: map<string, string>)
    requires m.Keys == Image(f, init)
    requires m.Values == set k | k in init
    requires forall k :: k in init ==> m[f(k)] == k
    requires forall x :: x in m ==> f(m[x]) == x
    requires f(last) !in m
    ensures var m' := m[f(last) := last];
            && m'.Keys == Image(f, init) + {f(last)}
            && m'.Values == (set k | k in init) + {last}
            && (forall k :: k in init + [last] ==> m'[f(k)] == k)
            && (forall x :: x in m' ==> f(m'[x]) == x)
  {
    FreshValues(m, f(last), last);
    var m' := m[f(last) := last];
    forall k | k in init + [last]
      ensures m'[f(k)] == k
    {
      if k != last {
        assert k in init;
      }
    }
  }

  /** Mapping a fresh key adds exactly its value to the values. */
  lemma FreshValues(m: map<string, string>, x: string, v: string)
    requires x !in m
    ensures m[x := v].Values == m.Values + {v}
  {
    var m' := m[x := v];
    forall w | w in m'.Values
      ensures w in m.Values + {v}
    {
      var y :| y in m' && m'[y] == w;
      if y != x {
        assert m[y] == w;
      }
    }
    forall w | w in m.Values
      ensures w in m'.Values
    {
      var y :| y in m && m[y] == w;
      assert m'[y] == w;
    }
    assert m'[x] == v;
  }

  /** How the images of a sequence relate to those of its initial part. */
  lemma AppendKey(f: string -> string, keys: seq<string>)
    requires keys != []
    ensures var init, last := keys[..|keys| - 1], keys[|keys| - 1];
            && keys == init + [last]
            && (forall k :: k in keys <==> k in init || k == last)
            && Image(f, keys) == Image(f, init) + {f(last)}
            && (Injective(f, keys) <==> Injective(f, init) && f(last) !in Image(f, init))
  {
    var init, last := keys[..|keys| - 1], keys[|keys| - 1];
    assert keys == init + [last];
    if Injective(f, keys) {
      InjectiveInit(f, keys);
      LastFresh(f, keys);
    }
    if Injective(f, init) && f(last) !in Image(f, init) {
      InjectiveExtend(f, keys);
    }
  }

  /** An injective sequence has an injective initial part. */
  lemma InjectiveInit(f: string -> string, keys: seq<string>)
    requires keys != [] && Injective(f, keys)
    ensures Injective(f, keys[..|keys| - 1])
  {
    var init := keys[..|keys| - 1];
    forall i, j | 0 <= i < j < |init|
      ensures f(init[i]) != f(init[j])
    {
      assert keys[i] == init[i] && keys[j] == init[j];
    }
  }

  /** In an injective sequence the last key's image is not among the earlier ones. */
  lemma LastFresh(f: string -> string, keys: seq<string>)
    requires keys != [] && Injective(f, keys)
    ensures f(keys[|keys| - 1]) !in Image(f, keys[..|keys| - 1])
  {
    var init, last := keys[..|keys| - 1], keys[|keys| - 1];
    forall k | k in init
      ensures f(k) != f(last)
    {
      var i :| 0 <= i < |init| && init[i] == k;
      assert keys[i] == init[i];
    }
  }

  /** An injective initial part followed by a fresh image is injective. */
  lemma InjectiveExtend(f: string -> string, keys: seq<string>)
    requires keys != []
    requires Injective(f, keys[..|keys| - 1])
    requires f(keys[|keys| - 1]) !in Image(f, keys[..|keys| - 1])
    ensures Injective(f, keys)
  {
    var init := keys[..|keys| - 1];
    forall i, j | 0 <= i < j < |keys|
      ensures f(keys[i]) != f(keys[j])
    {
      assert keys[i] == init[i];
      if j < |init| {
        assert keys[j] == init[j];
      } else {
        assert init[i] in init;
      }
    }
  }

  /** `(await store.GetAsync(...)).ToDictionary(x => keyLookup[x.Key], x => x.Value)`:
      the store's answer re-keyed by the index; an answered key missing
      from the lookup is a fault. */
  function Remap<V>(f: string -> string, lookup: map<string, string>, answer: map<string, V>)
    : (r: Result<map<string, V>, Fault>)
    requires forall x :: x in lookup ==> f(lookup[x]) == x
    ensures r.Success? <==> answer.Keys <= lookup.Keys
    ensures r.Failure? ==> r.error == KeyNotFound
    ensures r.Success? ==> r.value.Keys == set x | x in answer && x in lookup :: lookup[x]
    ensures r.Success? ==> forall x :: x in answer ==> r.value[lookup[x]] == answer[x]
    ensures r.Success? && answer.Keys == lookup.Keys ==> r.value.Keys == lookup.Values
  {
    if answer.Keys <= lookup.Keys then
      Success(map x | x in answer :: lookup[x] := answer[x])
    else
      Failure(KeyNotFound)
  }

  /** Re-keying a one-entry answer through a one-entry index. */
  lemma RemapOne<V>(f: string -> string, x: string, k: string, v: V)
    requires f(k) == x
    ensures Remap(f, map[x := k], map[x := v]) == Success(map[k := v])
  {
    var lookup, answer := map[x := k], map[x := v];
    var r := Remap(f, lookup, answer);
    assert r.Success?;
    assert x in answer && lookup[x] == k;
    assert r.value[k] == v;
    assert forall y :: y in r.value ==> y == k;
    assert r.value == map[k := v];
  }

  /** Three keys with pairwise distinct images. */
  lemma InjectiveThree(f: string -> string, k1: string, k2: string, k3: string)
    requires f(k1) != f(k2) && f(k1) != f(k3) && f(k2) != f(k3)
    ensures Injective(f, [k1, k2, k3])
  {
    var keys := [k1, k2, k3];
    forall i, j | 0 <= i < j < 3
      ensures f(keys[i]) != f(keys[j])
    {
    }
  }

  /** No key occurs twice. */
  predicate NoRepeats(keys: seq<string>) {
    forall i, j :: 0 <= i < j < |keys| ==> keys[i] != keys[j]
  }

  /** A sequence has no repeats exactly when its initial part has none and
      does not contain the last key. */
  lemma AppendNoRepeats(keys: seq<string>)
    requires keys != []
    ensures var init, last := keys[..|keys| - 1], keys[|keys| - 1];
            NoRepeats(keys) <==> NoRepeats(init) && last !in init
  {
    var init, last := keys[..|keys| - 1], keys[|keys| - 1];
    if NoRepeats(keys) {
      forall i, j | 0 <= i < j < |init|
        ensures init[i] != init[j]
      {
        assert keys[i] == init[i] && keys[j] == init[j];
      }
      forall i | 0 <= i < |init|
        ensures init[i] != last
      {
        assert keys[i] == init[i];
      }
    }
    if NoRepeats(init) && last !in init {
      forall i, j | 0 <= i < j < |keys|
        ensures keys[i] != keys[j]
      {
        assert keys[i] == init[i];
        if j < |init| {
          assert keys[j] == init[j];
        }
      }
    }
  }

  /** A sequence without repeats has as many distinct elements as positions. */
  lemma {:induction false} DistinctCount(keys: seq<string>)
    requires NoRepeats(keys)
    ensures |set k | k in keys| == |keys|
  {
    if keys != [] {
      var init, last := keys[..|keys| - 1], keys[|keys| - 1];
      assert keys == init + [last];
      DistinctCount(init);
      assert (set k | k in keys) == (set k | k in init) + {last};
      assert last !in init;
    }
  }

  /** An injective sequence has no repeated key. */
  lemma InjectiveDistinct(f: string -> string, keys: seq<string>)
    requires Injective(f, keys)
    ensures NoRepeats(keys)
  {
  }
}
