/**
 * The JavaScript string operations the generator relies on:
 * `replace` with a string pattern, which searches with `IndexOf`, and
 * `Array.prototype.join`. `Split` is not called by the generator; it is
 * the inverse of `join` and serves the proofs that read a barrel file back
 * line by line.
 */
module Strings {

  datatype Option<+T> = None | Some(value: T)

  predicate OccursAt(s: string, pat: string, i: nat) {
    i + |pat| <= |s| && s[i..i + |pat|] == pat
  }

  /** The first index at or after `i` where `pat` occurs. */
  function IndexFrom(s: string, pat: string, i: nat): (r: Option<nat>)
    requires i <= |s|
    ensures r.Some? ==> i <= r.value <= |s| && OccursAt(s, pat, r.value)
    ensures r.Some? ==> forall j :: i <= j < r.value ==> !OccursAt(s, pat, j)
    ensures r.None? ==> forall j :: i <= j <= |s| ==> !OccursAt(s, pat, j)
    decreases |s| - i
  {
    if OccursAt(s, pat, i) then Some(i)
    else if i == |s| then None
    else IndexFrom(s, pat, i + 1)
  }

  /** `s.indexOf(pat)`: the first occurrence of `pat` in `s`. */
  function IndexOf(s: string, pat: string): (r: Option<nat>)
    ensures r.Some? ==> OccursAt(s, pat, r.value)
    ensures r.Some? ==> forall j :: 0 <= j < r.value ==> !OccursAt(s, pat, j)
    ensures r.None? ==> forall j :: 0 <= j <= |s| ==> !OccursAt(s, pat, j)
  {
    IndexFrom(s, pat, 0)
  }

  /**
   * `s.replace(pat, replacement)` with a string pattern: only the first occurrence is
   * replaced. The replacement is taken literally (the callers pass no `$`).
   */
  function ReplaceFirst(s: string, pat: string, replacement: string): string {
    match IndexOf(s, pat)
    case None => s
    case Some(i) => s[..i] + replacement + s[i + |pat|..]
  }

  /** A pattern that opens the string is what `replace` replaces. */
  lemma {:induction false} ReplaceFirstAtStart(pat: string, rest: string, replacement: string)
    ensures ReplaceFirst(pat + rest, pat, replacement) == replacement + rest
  {
    var s := pat + rest;
    assert OccursAt(s, pat, 0) by { assert s[0..|pat|] == pat; }
    assert s[|pat|..] == rest;
  }

  /** Concatenation regrouped; stated on plain strings so that callers need not unfold their own terms. */
  lemma Regroup(a: string, b: string, c: string)
    ensures a + (b + c) == a + b + c
  {
  }

  /** `xs.join(sep)`. */
  function Join(xs: seq<string>, sep: string): string {
    if xs == [] then []
    else if |xs| == 1 then xs[0]
    else xs[0] + sep + Join(xs[1..], sep)
  }

  /** `s.split(sep)` for a non-empty separator. */
  function Split(s: string, sep: string): (r: seq<string>)
    requires |sep| > 0
    ensures |r| > 0
    decreases |s|
  {
    match IndexOf(s, sep)
    case None => [s]
    case Some(i) => [s[..i]] + Split(s[i + |sep|..], sep)
  }

  /** `join` then `split` gives back the pieces when none contains the separator's first character. */
  lemma {:induction false} SplitJoin(xs: seq<string>, sep: string)
    requires |sep| > 0 && |xs| > 0
    requires forall k :: 0 <= k < |xs| ==> sep[0] !in xs[k]
    ensures Split(Join(xs, sep), sep) == xs
  {
    if |xs| == 1 {
      var s := xs[0];
      forall j | 0 <= j <= |s| ensures !OccursAt(s, sep, j) {
        assert j < |s| ==> s[j] != sep[0];
      }
    } else {
      var rest := Join(xs[1..], sep);
      var s := xs[0] + sep + rest;
      assert OccursAt(s, sep, |xs[0]|) by {
        assert s[|xs[0]|..|xs[0]| + |sep|] == sep;
      }
      forall j | 0 <= j < |xs[0]| ensures !OccursAt(s, sep, j) {
        assert s[j] == xs[0][j] != sep[0];
      }
      assert IndexOf(s, sep) == Some(|xs[0]|);
      assert s[..|xs[0]|] == xs[0];
      assert s[|xs[0]| + |sep|..] == rest;
      SplitJoin(xs[1..], sep);
    }
  }
}
