/** String helpers with the semantics of the .NET calls the cache layer makes. */
module Text {

  /** Ordinal, non-overlapping, left-to-right replacement of every occurrence
      of `pat` by `rep`, as `string.Replace(pat, rep)` does (an empty `pat`
      is an argument error there, so it is excluded here). */
  function Replace(s: string, pat: string, rep: string): string
    requires pat != []
    decreases |s|
  {
    if s == [] then []
    else if pat <= s then rep + Replace(s[|pat|..], pat, rep)
    else [s[0]] + Replace(s[1..], pat, rep)
  }

  /** `pat` occurs somewhere in `s`. */
  predicate Occurs(pat: string, s: string) {
    exists i :: 0 <= i < |s| && pat <= s[i..]
  }

  /** Deleting occurrences never lengthens a string, and shortens it when there is one. */
  lemma {:induction false} DeleteShrinks(s: string, pat: string)
    requires pat != []
    ensures |Replace(s, pat, "")| <= |s|
    ensures Occurs(pat, s) ==> |Replace(s, pat, "")| < |s|
    decreases |s|
  {
    if s == [] {
    } else if pat <= s {
      DeleteShrinks(s[|pat|..], pat);
    } else {
      DeleteShrinks(s[1..], pat);
      OccursStep(pat, s);
    }
  }

  /** Where `pat` is not a prefix of `s`, it occurs in `s` exactly when it occurs in `s`'s tail. */
  lemma OccursStep(pat: string, s: string)
    requires s != [] && !(pat <= s)
    ensures Occurs(pat, s) <==> Occurs(pat, s[1..])
  {
    if Occurs(pat, s) {
      var i :| 0 <= i < |s| && pat <= s[i..];
      assert i != 0;
      assert s[1..][i - 1..] == s[i..];
    }
    if Occurs(pat, s[1..]) {
      var j :| 0 <= j < |s[1..]| && pat <= s[1..][j..];
      assert s[1..][j..] == s[j + 1..];
    }
  }

  /** A string equals its first character followed by `t` exactly when `t` is its tail. */
  lemma ConsEq(s: string, t: string)
    requires s != []
    ensures [s[0]] + t == s <==> t == s[1..]
  {
    if [s[0]] + t == s {
      assert ([s[0]] + t)[1..] == t;
    }
  }

  /** Deleting `pat` leaves `s` unchanged exactly when `pat` does not occur in it. */
  lemma {:induction false} DeleteIdentity(s: string, pat: string)
    requires pat != []
    ensures Replace(s, pat, "") == s <==> !Occurs(pat, s)
    decreases |s|
  {
    if s == [] {
    } else if pat <= s {
      assert s[0..] == s;
      DeleteShrinks(s[|pat|..], pat);
    } else {
      DeleteIdentity(s[1..], pat);
      OccursStep(pat, s);
      assert Replace(s, pat, "") == [s[0]] + Replace(s[1..], pat, "");
      ConsEq(s, Replace(s[1..], pat, ""));
    }
  }

  /** Replacing one character by another is a per-character substitution. */
  lemma {:induction false} ReplaceChar(s: string, a: char, b: char)
    ensures |Replace(s, [a], [b])| == |s|
    ensures forall i :: 0 <= i < |s| ==>
              Replace(s, [a], [b])[i] == (if s[i] == a then b else s[i])
    decreases |s|
  {
    if s != [] {
      ReplaceChar(s[1..], a, b);
      var head := if s[0] == a then b else s[0];
      assert Replace(s, [a], [b]) == [head] + Replace(s[1..], [a], [b]);
    }
  }

  /** Deleting a one-character pattern looks at one character at a time. */
  lemma DeleteCharStep(c: char, s: string, p: char)
    ensures Replace([c] + s, [p], "") == (if c == p then "" else [c]) + Replace(s, [p], "")
  {
    var t := [c] + s;
    assert t[1..] == s;
    assert t[0] == c;
    if [p] <= t {
      assert [p][0] == t[0];
    }
  }

  /** Deleting a one-character pattern distributes over concatenation. */
  lemma {:induction false} DeleteConcat(s: string, t: string, p: char)
    ensures Replace(s + t, [p], "") == Replace(s, [p], "") + Replace(t, [p], "")
    decreases |s|
  {
    if s != [] {
      DeleteConcat(s[1..], t, p);
      assert s + t == [s[0]] + (s[1..] + t);
      assert s == [s[0]] + s[1..];
      DeleteCharStep(s[0], s[1..] + t, p);
      DeleteCharStep(s[0], s[1..], p);
    } else {
      assert s + t == t;
    }
  }

  /** Deleting a character that does not occur changes nothing. */
  lemma {:induction false} DeleteAbsent(s: string, p: char)
    requires p !in s
    ensures Replace(s, [p], "") == s
    decreases |s|
  {
    if s != [] {
      DeleteAbsent(s[1..], p);
      assert s == [s[0]] + s[1..];
      DeleteCharStep(s[0], s[1..], p);
    }
  }

  /** `CacheBase.CleanKey`: every space becomes an underscore; nothing else moves. */
  function CleanKey(key: string): (r: string)
    ensures |r| == |key|
    ensures forall i :: 0 <= i < |key| ==> r[i] == (if key[i] == ' ' then '_' else key[i])
  {
    ReplaceChar(key, ' ', '_');
    Replace(key, " ", "_")
  }

  /** A cleaned key holds no space, and cleaning it again changes nothing. */
  lemma CleanKeyIdempotent(key: string)
    ensures ' ' !in CleanKey(key)
    ensures CleanKey(CleanKey(key)) == CleanKey(key)
  {
    var c := CleanKey(key);
    assert forall i :: 0 <= i < |c| ==> c[i] != ' ';
  }

  /** ASCII-only lower-casing of one character. */
  function AsciiLower(c: char): char {
    if 'A' <= c <= 'Z' then (c as int - 'A' as int + 'a' as int) as char else c
  }

  /** ASCII-only `ToLower` of a string. */
  function Lower(s: string): (r: string)
    ensures |r| == |s|
    ensures forall i :: 0 <= i < |s| ==> r[i] == AsciiLower(s[i])
  {
    seq(|s|, i requires 0 <= i < |s| => AsciiLower(s[i]))
  }
}
