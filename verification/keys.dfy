/** Key strategies: how a logical key becomes the physical key handed to the store. */
module Keys {
  import opened Text
  import opened Hex

  /** An MD5 digest: 128 bits, 16 bytes (section 3.5 of RFC 1321). */
  type Digest = d: seq<byte> | |d| == 16 witness seq(16, _ => 0 as byte)

  /** A logical-key character as it appears in the physical key: a space
      becomes `_` and an ASCII capital becomes its lower-case letter. */
  function KeyChar(c: char): char {
    if c == ' ' then '_'
    else if 'A' <= c <= 'Z' then (c as int + 32) as char
    else c
  }

  /** A key that the prefixed strategy copies verbatim: no space, no ASCII capital. */
  predicate IsCanonical(key: string) {
    forall i :: 0 <= i < |key| ==> key[i] != ' ' && !('A' <= key[i] <= 'Z')
  }

  /** The `cachePrefix + "$" + CleanKey(key).ToLower()` strategy of `CasCache`
      and `ValueCache`; the prefix itself is not lower-cased. */
  function ProcessKey(prefix: string, key: string): (r: string)
    ensures prefix + "$" <= r
    ensures |r| == |prefix| + 1 + |key|
    ensures forall i :: 0 <= i < |key| ==> r[|prefix| + 1 + i] == KeyChar(key[i])
  {
    prefix + "$" + Lower(CleanKey(key))
  }

  /** Under one prefix, two logical keys share a physical key exactly when
      they agree character by character up to ASCII case and space/underscore. */
  lemma ProcessKeyCollision(prefix: string, a: string, b: string)
    ensures ProcessKey(prefix, a) == ProcessKey(prefix, b) <==>
            |a| == |b| && forall i :: 0 <= i < |a| ==> KeyChar(a[i]) == KeyChar(b[i])
  {
    var ra, rb := ProcessKey(prefix, a), ProcessKey(prefix, b);
    if ra == rb {
      forall i | 0 <= i < |a|
        ensures KeyChar(a[i]) == KeyChar(b[i])
      {
        assert ra[|prefix| + 1 + i] == rb[|prefix| + 1 + i];
      }
    }
    if |a| == |b| && forall i :: 0 <= i < |a| ==> KeyChar(a[i]) == KeyChar(b[i]) {
      forall j | 0 <= j < |ra|
        ensures ra[j] == rb[j]
      {
        if j > |prefix| {
          assert ra[|prefix| + 1 + (j - |prefix| - 1)] == rb[|prefix| + 1 + (j - |prefix| - 1)];
        } else {
          assert (prefix + "$")[j] == ra[j] == rb[j];
        }
      }
    }
  }

  /** A canonical key is copied verbatim after the prefix and separator. */
  lemma CanonicalKeyVerbatim(prefix: string, key: string)
    requires IsCanonical(key)
    ensures ProcessKey(prefix, key) == prefix + "$" + key
  {
    var r := ProcessKey(prefix, key);
    forall j | 0 <= j < |r|
      ensures r[j] == (prefix + "$" + key)[j]
    {
      if j > |prefix| {
        assert r[|prefix| + 1 + (j - |prefix| - 1)] == KeyChar(key[j - |prefix| - 1]);
      }
    }
  }

  /** The separator is not escaped: a prefix ending in `$` and a key starting
      with `$` meet in the middle. */
  lemma SeparatorCollision()
    ensures ProcessKey("a", "$b") == ProcessKey("a$", "b")
  {
    assert ProcessKey("a", "$b") == "a$$b";
    assert ProcessKey("a$", "b") == "a$$b";
  }

  /** `Encoding.ASCII.GetBytes`: one byte per character, `?` for anything outside ASCII. */
  function AsciiBytes(s: string): (r: seq<byte>)
    ensures |r| == |s|
    ensures forall i :: 0 <= i < |s| ==> r[i] as int == if s[i] as int < 128 then s[i] as int else '?' as int
  {
    seq(|s|, i requires 0 <= i < |s| => if s[i] as int < 128 then s[i] as int as byte else '?' as int as byte)
  }

  /** `HashCache.GetCacheKey`: the upper-case hex of the MD5 digest of the key's ASCII bytes. */
  function GetCacheKey(md5: seq<byte> -> Digest, key: string): (r: string)
    ensures |r| == 32
    ensures forall j :: 0 <= j < |r| ==> IsUpperHexDigit(r[j])
  {
    HexUpper(md5(AsciiBytes(key)))
  }

  /** `HashCache.GetKey`: the prefixed strategy applied to the hashed key. */
  function HashKey(prefix: string, md5: seq<byte> -> Digest, key: string): (r: string)
    ensures prefix + "$" <= r
    ensures |r| == |prefix| + 33
  {
    ProcessKey(prefix, GetCacheKey(md5, key))
  }

  /** Two logical keys share a hashed physical key exactly when their digests collide. */
  lemma HashKeyCollision(prefix: string, md5: seq<byte> -> Digest, a: string, b: string)
    ensures HashKey(prefix, md5, a) == HashKey(prefix, md5, b) <==>
            md5(AsciiBytes(a)) == md5(AsciiBytes(b))
  {
    var ha, hb := GetCacheKey(md5, a), GetCacheKey(md5, b);
    ProcessKeyCollision(prefix, ha, hb);
    if HashKey(prefix, md5, a) == HashKey(prefix, md5, b) {
      forall i | 0 <= i < |ha|
        ensures ha[i] == hb[i]
      {
        assert KeyChar(ha[i]) == KeyChar(hb[i]);
      }
      assert ha == hb;
      HexUpperInjective(md5(AsciiBytes(a)), md5(AsciiBytes(b)));
    }
  }

  /** Non-ASCII characters are all hashed as `?`, so such keys collide. */
  lemma NonAsciiKeysCollide(prefix: string, md5: seq<byte> -> Digest)
    ensures HashKey(prefix, md5, "é") == HashKey(prefix, md5, "?")
  {
    assert AsciiBytes("é") == AsciiBytes("?");
  }

  /** The key strategy a cache is built with. */
  datatype Strategy =
    | Prefixed(prefix: string)                              // Cache, CasCache, ValueCache
    | Hashed(prefix: string, md5: seq<byte> -> Digest)     // HashCache

  /** The physical key of `key` under strategy `s`. */
  function PhysicalKey(s: Strategy, key: string): (r: string)
    ensures s.prefix + "$" <= r
    ensures s.Hashed? ==> |r| == |s.prefix| + 33
  {
    match s
    case Prefixed(p) => ProcessKey(p, key)
    case Hashed(p, md5) => HashKey(p, md5, key)
  }
}
