/**
 * The sigil pass applied after the label-strip pass:
 *
 *     text.replace(/(\$\w)/g, (s) => s.toLowerCase())
 *
 * Each `$` followed by a word character is a match; the match is lower-cased,
 * which can only change that word character, and the search resumes after
 * it. A `$` is never a word character, so no `$` is swallowed by an earlier
 * match and the effect is pointwise: a character changes only when a `$`
 * stands right before it.
 */
module Sigils {
  import opened Ascii

  /** What the pass leaves at position `i` of `s`. */
  function SigilChar(s: string, i: nat): char
    requires i < |s|
  {
    if i > 0 && s[i - 1] == '$' then ToLower(s[i]) else s[i]
  }

  /** The global replacement, scanning from the front. */
  function LowerSigils(s: string): (r: string)
    ensures |r| == |s|
    ensures forall i :: 0 <= i < |s| ==> r[i] == SigilChar(s, i)
  {
    if s == [] then []
    else if s[0] == '$' && |s| > 1 && IsWordChar(s[1]) then
      [s[0], ToLower(s[1])] + LowerSigils(s[2..])
    else
      [s[0]] + LowerSigils(s[1..])
  }

  /** Only characters right after a `$` change, and each only in case. */
  lemma {:induction false} LowerSigilsChanges(s: string, i: nat)
    requires i < |s|
    ensures LowerSigils(s)[i] != s[i] <==> i > 0 && s[i - 1] == '$' && IsUpper(s[i])
  {
  }

  /** After the pass no `$` is followed by an upper-case letter. */
  lemma {:induction false} LowerSigilsNoUpperAfterSigil(s: string)
    ensures var r := LowerSigils(s);
      forall i :: 0 < i < |r| && r[i - 1] == '$' ==> !IsUpper(r[i])
  {
    var r := LowerSigils(s);
    forall i | 0 < i < |r| && r[i - 1] == '$' ensures !IsUpper(r[i]) {
      assert ToLower(s[i - 1]) == '$' ==> s[i - 1] == '$';
    }
  }

  /** A second pass changes nothing. */
  lemma {:induction false} LowerSigilsIdempotent(s: string)
    ensures LowerSigils(LowerSigils(s)) == LowerSigils(s)
  {
    var r := LowerSigils(s);
    LowerSigilsNoUpperAfterSigil(s);
    forall i | 0 <= i < |r| ensures LowerSigils(r)[i] == r[i] {
      assert i > 0 && r[i - 1] == '$' ==> !IsUpper(r[i]);
    }
  }

  /** The variable sigils of a printed operation: `$Id` becomes `$id`, `$ID` becomes `$iD`. */
  lemma LowerSigilsExamples()
    ensures LowerSigils("f(id: $Id)") == "f(id: $id)"
    ensures LowerSigils("$ID") == "$iD"
    ensures LowerSigils("$$A") == "$$a"
  {
    var s := "f(id: $Id)";
    assert forall i :: 0 <= i < |s| ==> SigilChar(s, i) == "f(id: $id)"[i];
  }
}
