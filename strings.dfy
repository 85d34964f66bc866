/**
 * The string operations the pages use: `toLowerCase` (restricted to ASCII), a global
 * single-character `replace(/c/g, d)`, and the plain `replace(c, d)` that rewrites only the
 * first occurrence.
 */
module Strings {

  predicate IsAsciiUpper(c: char) {
    'A' <= c <= 'Z'
  }

  /** ASCII lower-casing of one character; every other character is left as it is. */
  function LowerChar(c: char): (r: char)
    ensures !IsAsciiUpper(r)
    ensures !IsAsciiUpper(c) ==> r == c
    ensures IsAsciiUpper(c) ==> 'a' <= r <= 'z' && r as int - 'a' as int == c as int - 'A' as int
  {
    if IsAsciiUpper(c) then (c as int + 32) as char else c
  }

  /** `s.toLowerCase()` on ASCII text. */
  function ToLower(s: string): (r: string)
    ensures |r| == |s|
  {
    if s == [] then [] else [LowerChar(s[0])] + ToLower(s[1..])
  }

  /** `s.replace(/from/g, to)` for a one-character pattern. */
  function ReplaceAll(s: string, from: char, to: char): (r: string)
    ensures |r| == |s|
    ensures from != to ==> from !in r
  {
    if s == [] then []
    else [if s[0] == from then to else s[0]] + ReplaceAll(s[1..], from, to)
  }

  /** `s.replace(from, to)` with a one-character string pattern: only the first match changes. */
  function ReplaceFirst(s: string, from: char, to: char): (r: string)
    ensures |r| == |s|
  {
    if s == [] then []
    else if s[0] == from then [to] + s[1..]
    else [s[0]] + ReplaceFirst(s[1..], from, to)
  }

  lemma {:induction false} ToLowerAt(s: string, i: nat)
    requires i < |s|
    ensures ToLower(s)[i] == LowerChar(s[i])
    decreases |s|
  {
    if i > 0 {
      ToLowerAt(s[1..], i - 1);
    }
  }

  lemma {:induction false} ReplaceAllAt(s: string, from: char, to: char, i: nat)
    requires i < |s|
    ensures ReplaceAll(s, from, to)[i] == if s[i] == from then to else s[i]
    decreases |s|
  {
    if i > 0 {
      ReplaceAllAt(s[1..], from, to, i - 1);
    }
  }

  /**
   * Only the first occurrence of `from` is rewritten: with `k` the index of that occurrence,
   * the result is `s` with position `k` set to `to`; without one, the result is `s`.
   */
  lemma {:induction false} ReplaceFirstSpec(s: string, from: char, to: char)
    ensures from !in s ==> ReplaceFirst(s, from, to) == s
    ensures forall k :: 0 <= k < |s| && s[k] == from && from !in s[..k] ==>
      ReplaceFirst(s, from, to) == s[k := to]
    decreases |s|
  {
    if s != [] {
      ReplaceFirstSpec(s[1..], from, to);
      if s[0] != from {
        forall k | 0 <= k < |s| && s[k] == from && from !in s[..k]
          ensures ReplaceFirst(s, from, to) == s[k := to]
        {
          assert k > 0;
          assert s[1..][k - 1] == from;
          assert s[1..][..k - 1] == s[..k][1..];
          assert s[1..][k - 1 := to] == s[k := to][1..];
        }
        assert from !in s ==> from !in s[1..];
      }
    }
  }
}
