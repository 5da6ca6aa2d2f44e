/** The string operations of the source: `str.startswith`, `tag.split("-")[0]` and `str.lower`. */
module Text {

  /** `s.startswith(p)`. */
  predicate StartsWith(s: string, p: string)
  {
    |p| <= |s| && s[..|p|] == p
  }

  /** The main category of a tag: the text before the first '-', or the whole tag when it has none. */
  function MainTag(tag: string): (m: string)
    ensures m == tag || (|m| < |tag| && tag[|m|] == '-')
    ensures StartsWith(tag, m) && '-' !in m
  {
    if tag == [] then []
    else if tag[0] == '-' then []
    else [tag[0]] + MainTag(tag[1..])
  }

  /** ASCII lower-casing of one character. */
  function LowerChar(c: char): char
  {
    if 'A' <= c <= 'Z' then (c as int + 32) as char else c
  }

  /** `s.lower()`, restricted to ASCII letters. */
  function Lower(s: string): (r: string)
    ensures |r| == |s|
    ensures forall k :: 0 <= k < |s| ==> r[k] == LowerChar(s[k])
  {
    if s == [] then [] else [LowerChar(s[0])] + Lower(s[1..])
  }

  /** Lower-casing leaves a string without capitals as it is. */
  lemma LowerOfLowercase(s: string)
    requires forall k :: 0 <= k < |s| ==> !('A' <= s[k] <= 'Z')
    ensures Lower(s) == s
  {
  }
}
