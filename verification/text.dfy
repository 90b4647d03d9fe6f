/** Character-level helpers: the wildcard test `isWildcard` and the ASCII
    lower-casing applied to both sides of a pattern match. */
module Text {

  /** The two metacharacters whose presence makes a source spec a wildcard. */
  predicate IsMeta(c: char) {
    c == '*' || c == '?'
  }

  /** `strings.Contains(s, string(c))`. */
  function Contains(s: string, c: char): (b: bool)
    ensures b <==> exists i :: 0 <= i < |s| && s[i] == c
  {
    if |s| == 0 then false
    else s[0] == c || Contains(s[1..], c)
  }

  /** `isWildcard`: the value mentions `*` or `?` somewhere. */
  function IsWildcard(value: string): (b: bool)
    ensures b <==> exists i :: 0 <= i < |value| && IsMeta(value[i])
  {
    Contains(value, '*') || Contains(value, '?')
  }

  /** The unit cases of the repository's test of `isWildcard`. */
  lemma IsWildcardCases()
    ensures !IsWildcard("file.ext")
    ensures IsWildcard("file??.ext")
    ensures IsWildcard("file*.ext")
    ensures IsWildcard("file*.?xt")
    ensures !IsWildcard("")
  {
    assert IsMeta("file??.ext"[4]);
    assert IsMeta("file*.ext"[4]);
    assert IsMeta("file*.?xt"[4]);
  }

  /** ASCII lower-casing of one character; `strings.ToLower` restricted to ASCII. */
  function LowerChar(c: char): char {
    if 'A' <= c <= 'Z' then (c as int + 32) as char else c
  }

  /** `strings.ToLower` restricted to ASCII, character by character. */
  function Lower(s: string): (t: string)
    ensures |t| == |s|
    ensures forall i :: 0 <= i < |s| ==> t[i] == LowerChar(s[i])
  {
    if |s| == 0 then [] else [LowerChar(s[0])] + Lower(s[1..])
  }

  /** Lower-casing neither creates nor destroys a metacharacter. */
  lemma LowerChar_Meta(c: char)
    ensures IsMeta(LowerChar(c)) <==> IsMeta(c)
    ensures c == '*' <==> LowerChar(c) == '*'
    ensures c == '?' <==> LowerChar(c) == '?'
  {
  }

  /** A source spec is a wildcard exactly when its lower-cased form is. */
  lemma IsWildcardLower(s: string)
    ensures IsWildcard(Lower(s)) == IsWildcard(s)
  {
    forall i | 0 <= i < |s| {
      LowerChar_Meta(s[i]);
    }
  }
}
