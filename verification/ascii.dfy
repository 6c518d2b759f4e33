/**
 * ASCII character classes and case mapping as the generator's regular
 * expressions and `toLowerCase`/`toUpperCase` see them on GraphQL names:
 * `[A-Z]` and `\w` without the `i` or `u` flag are ASCII-only.
 */
module Ascii {

  predicate IsUpper(c: char) { 'A' <= c <= 'Z' }

  predicate IsLower(c: char) { 'a' <= c <= 'z' }

  predicate IsDigit(c: char) { '0' <= c <= '9' }

  /** The class `\w`: `[A-Za-z0-9_]`. */
  predicate IsWordChar(c: char) { IsUpper(c) || IsLower(c) || IsDigit(c) || c == '_' }

  /** A GraphQL name, `[_A-Za-z][_0-9A-Za-z]*` (section 2.1.9 of the GraphQL specification). */
  predicate IsName(s: string) {
    |s| > 0 && !IsDigit(s[0]) && forall i :: 0 <= i < |s| ==> IsWordChar(s[i])
  }

  function ToLower(c: char): (r: char)
    ensures IsUpper(c) ==> IsLower(r) && r as int - c as int == 32
    ensures !IsUpper(c) ==> r == c
  {
    if IsUpper(c) then (c as int + 32) as char else c
  }

  function ToUpper(c: char): (r: char)
    ensures IsLower(c) ==> IsUpper(r) && c as int - r as int == 32
    ensures !IsLower(c) ==> r == c
  {
    if IsLower(c) then (c as int - 32) as char else c
  }

  /** `toUpperCase` on a string, restricted to ASCII letters. */
  function UpperString(s: string): (r: string)
    ensures |r| == |s|
    ensures forall i :: 0 <= i < |r| ==> !IsLower(r[i])
    ensures forall i :: 0 <= i < |r| ==> (r[i] == s[i] <==> !IsLower(s[i]))
    ensures forall i :: 0 <= i < |r| ==> r[i] == ToUpper(s[i])
  {
    if s == [] then [] else [ToUpper(s[0])] + UpperString(s[1..])
  }

  /** A string whose characters are those of `s` upper-cased is `UpperString(s)`. */
  lemma UpperStringIs(s: string, t: string)
    requires |s| == |t| && forall i :: 0 <= i < |s| ==> ToUpper(s[i]) == t[i]
    ensures UpperString(s) == t
  {
  }

  /** Upper-casing works character by character. */
  lemma {:induction false} UpperStringAppend(a: string, b: string)
    ensures UpperString(a + b) == UpperString(a) + UpperString(b)
  {
    if a != [] {
      assert (a + b)[1..] == a[1..] + b;
      UpperStringAppend(a[1..], b);
    } else {
      assert a + b == b;
    }
  }

  /** How many times `c` occurs in `s`. */
  function Count(s: string, c: char): (n: nat)
    ensures n <= |s|
    ensures n == 0 <==> c !in s
  {
    if s == [] then 0 else (if s[0] == c then 1 else 0) + Count(s[1..], c)
  }

  lemma {:induction false} CountAppend(a: string, b: string, c: char)
    ensures Count(a + b, c) == Count(a, c) + Count(b, c)
  {
    if a != [] {
      assert (a + b)[1..] == a[1..] + b;
      CountAppend(a[1..], b, c);
    } else {
      assert a + b == b;
    }
  }

  /** Upper-casing keeps every non-letter where it was, so it keeps the count of any of them. */
  lemma {:induction false} UpperStringKeepsCount(s: string, c: char)
    requires !IsLower(c) && !IsUpper(c)
    ensures Count(UpperString(s), c) == Count(s, c)
  {
    if s != [] {
      UpperStringKeepsCount(s[1..], c);
      assert UpperString(s)[1..] == UpperString(s[1..]);
      assert ToUpper(s[0]) == c <==> s[0] == c;
    }
  }
}
