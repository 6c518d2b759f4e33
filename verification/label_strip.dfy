/**
 * The label-strip pass applied to every printed operation document:
 *
 *     text.replace(/^([\t\s]*)((?!\().)*(:\s)/gm, '$1')
 *
 * In multiline mode `^` holds at the start of the text and after every line
 * terminator. At such a position the greedy `[\t\s]*` takes the whole run of
 * white space (which may cross line breaks: `\s` contains them); the tempered
 * `((?!\().)*` then runs over characters that are neither `(` nor a line
 * terminator (`.` matches no line terminator), and backtracks to the LAST
 * `:` in that run that is followed by one white-space character. The match
 * is replaced by the leading white space alone. Giving back part of the
 * leading white space never lets a match succeed that failed with all of it,
 * so the model tries only the maximal run. Global mode then resumes the
 * search right after the match.
 *
 * The scanner `StripRest` is that search; `StripLine` and `StripByLines`
 * state its effect line by line, independently of it, and the lemmas
 * connect the two.
 */
module LabelStrip {
  import opened Strings

  /** ECMAScript LineTerminator: where `.` stops and after which `^` holds. */
  predicate IsLineTerminator(c: char) {
    c == '\n' || c == '\r' || c == '\U{2028}' || c == '\U{2029}'
  }

  /** ECMAScript `\s`: WhiteSpace and LineTerminator. */
  predicate IsSpace(c: char) {
    IsLineTerminator(c) || c == '\t' || c == '\U{000B}' || c == '\U{000C}' || c == ' ' ||
    c == '\U{00A0}' || c == '\U{1680}' || ('\U{2000}' <= c <= '\U{200A}') ||
    c == '\U{202F}' || c == '\U{205F}' || c == '\U{3000}' || c == '\U{FEFF}'
  }

  predicate NoLineTerminator(s: string) {
    forall i :: 0 <= i < |s| ==> !IsLineTerminator(s[i])
  }

  /** A `:` directly followed by one white-space character: the `(:\s)` group. */
  predicate ColonSpaceAt(s: string, k: nat) {
    k + 1 < |s| && s[k] == ':' && IsSpace(s[k + 1])
  }

  /** The end of the maximal white-space run starting at `i`: the greedy `[\t\s]*`. */
  function SpaceEnd(s: string, i: nat): (j: nat)
    requires i <= |s|
    ensures i <= j <= |s|
    decreases |s| - i
  {
    if i < |s| && IsSpace(s[i]) then SpaceEnd(s, i + 1) else i
  }

  lemma {:induction false} SpaceEndSpec(s: string, i: nat)
    requires i <= |s|
    ensures forall k :: i <= k < SpaceEnd(s, i) ==> IsSpace(s[k])
    ensures SpaceEnd(s, i) == |s| || !IsSpace(s[SpaceEnd(s, i)])
    decreases |s| - i
  {
    if i < |s| && IsSpace(s[i]) { SpaceEndSpec(s, i + 1); }
  }

  /** The end of the run of characters that `((?!\().)` accepts, starting at `q`. */
  function RunEnd(s: string, q: nat): (j: nat)
    requires q <= |s|
    ensures q <= j <= |s|
    decreases |s| - q
  {
    if q < |s| && s[q] != '(' && !IsLineTerminator(s[q]) then RunEnd(s, q + 1) else q
  }

  lemma {:induction false} RunEndSpec(s: string, q: nat)
    requires q <= |s|
    ensures forall k :: q <= k < RunEnd(s, q) ==> s[k] != '(' && !IsLineTerminator(s[k])
    ensures RunEnd(s, q) == |s| || s[RunEnd(s, q)] == '(' || IsLineTerminator(s[RunEnd(s, q)])
    decreases |s| - q
  {
    if q < |s| && s[q] != '(' && !IsLineTerminator(s[q]) { RunEndSpec(s, q + 1); }
  }

  /** The largest `k` in `[lo, hi)` with `ColonSpaceAt(s, k)`: where the greedy run backtracks to. */
  function LastColonSpace(s: string, lo: nat, hi: nat): (r: Option<nat>)
    requires lo <= hi <= |s|
    ensures r.Some? ==> lo <= r.value < hi
    decreases hi - lo
  {
    if hi == lo then None
    else if ColonSpaceAt(s, hi - 1) then Some(hi - 1)
    else LastColonSpace(s, lo, hi - 1)
  }

  lemma {:induction false} LastColonSpaceSpec(s: string, lo: nat, hi: nat)
    requires lo <= hi <= |s|
    ensures var r := LastColonSpace(s, lo, hi);
      && (r.Some? ==> ColonSpaceAt(s, r.value))
      && (r.Some? ==> forall k :: r.value < k < hi ==> !ColonSpaceAt(s, k))
      && (r.None? ==> forall k :: lo <= k < hi ==> !ColonSpaceAt(s, k))
    decreases hi - lo
  {
    if hi > lo && !ColonSpaceAt(s, hi - 1) { LastColonSpaceSpec(s, lo, hi - 1); }
  }


  /** A match: the captured white space is `t[..keepEnd]`, the whole match is `t[..end]`. */
  datatype Match = Match(keepEnd: nat, end: nat)

  /** The outcome of trying the expression at the start of `t`, a position where `^` holds. */
  function MatchHere(t: string): (m: Option<Match>)
    ensures m.Some? ==> m.value.keepEnd + 2 <= m.value.end <= |t|
  {
    var q := SpaceEnd(t, 0);
    match LastColonSpace(t, q, RunEnd(t, q))
    case None => None
    case Some(k) => Some(Match(q, k + 2))
  }

  /**
   * The global replacement over the text `t` still to be searched;
   * `lineStart` says whether `^` holds at its first character (the start of
   * the text, or just after a line terminator).
   */
  function StripRest(t: string, lineStart: bool): (r: string)
    ensures |r| <= |t|
    decreases |t|
  {
    if t == [] then []
    else if lineStart && MatchHere(t).Some? then
      var m := MatchHere(t).value;
      t[..m.keepEnd] + StripRest(t[m.end..], IsLineTerminator(t[m.end - 1]))
    else [t[0]] + StripRest(t[1..], IsLineTerminator(t[0]))
  }

  /** The label-strip pass over a whole printed document. */
  function StripLabels(s: string): (r: string)
    ensures |r| <= |s|
  {
    StripRest(s, true)
  }

  // ---------------------------------------------------------------------------
  // The pass stated line by line, independently of the scanner.

  /** The index of the first `(`, or the length when there is none. */
  function ParenIndex(line: string): (p: nat)
    ensures p <= |line|
    ensures forall k :: 0 <= k < p ==> line[k] != '('
    ensures p == |line| || line[p] == '('
  {
    if line == [] || line[0] == '(' then 0 else 1 + ParenIndex(line[1..])
  }

  /** The last `:` followed by white space that comes before the first `(`. */
  function LastLabel(line: string): (r: Option<nat>)
    ensures r.Some? ==> r.value + 2 <= ParenIndex(line) && ColonSpaceAt(line, r.value)
    ensures r.Some? ==> forall k :: r.value < k < ParenIndex(line) ==> !ColonSpaceAt(line, k)
    ensures r.None? ==> forall k :: 0 <= k < ParenIndex(line) ==> !ColonSpaceAt(line, k)
  {
    LastColonSpaceSpec(line, 0, ParenIndex(line));
    LastColonSpace(line, 0, ParenIndex(line))
  }

  /**
   * One line after the pass: when it has a label colon, its leading white
   * space followed by what comes after the last label colon; otherwise the
   * line itself.
   */
  function StripLine(line: string): (r: string)
    ensures |r| <= |line|
    ensures r == line <==> LastLabel(line).None?
    ensures LastLabel(line).Some? ==> |r| + 2 <= |line|
    // the leading white space survives
    ensures SpaceEnd(line, 0) <= |r| && r[..SpaceEnd(line, 0)] == line[..SpaceEnd(line, 0)]
    // everything from the first `(` on survives
    ensures |line| - ParenIndex(line) <= |r|
    ensures r[|r| - (|line| - ParenIndex(line))..] == line[ParenIndex(line)..]
    // no character is made up
    ensures forall i :: 0 <= i < |r| ==> r[i] in line
    // a line that did not end with `:` does not end with `:` afterwards
    ensures |r| > 0 && r[|r| - 1] == ':' ==> line[|line| - 1] == ':'
  {
    match LastLabel(line)
    case None => line
    case Some(k) =>
      var q := SpaceEnd(line, 0);
      LabelAfterSpace(line, k);
      StrippedLineShape(line, q, k);
      line[..q] + line[k + 2..]
  }

  /** The label colon lies after the leading white space, which holds no `:`. */
  lemma {:induction false} LabelAfterSpace(line: string, k: nat)
    requires LastLabel(line) == Some(k)
    ensures SpaceEnd(line, 0) <= k
    ensures forall i :: 0 <= i < SpaceEnd(line, 0) ==> line[i] != ':'
  {
    SpaceEndSpec(line, 0);
    assert !IsSpace(line[k]);
  }

  /** What cutting `line[q..k + 2]` out of a line keeps. */
  lemma {:induction false} StrippedLineShape(line: string, q: nat, k: nat)
    requires q <= k && k + 2 <= ParenIndex(line)
    requires forall i :: 0 <= i < q ==> line[i] != ':'
    ensures var r := line[..q] + line[k + 2..];
      && |r| + 2 <= |line|
      && r[..q] == line[..q]
      && |line| - ParenIndex(line) <= |r|
      && r[|r| - (|line| - ParenIndex(line))..] == line[ParenIndex(line)..]
      && (forall i :: 0 <= i < |r| ==> r[i] in line)
      && (|r| > 0 && r[|r| - 1] == ':' ==> line[|line| - 1] == ':')
  {
    var r := line[..q] + line[k + 2..];
    var p := ParenIndex(line);
    assert r[|r| - (|line| - p)..] == line[p..];
    forall i | 0 <= i < |r| ensures r[i] in line {
      if i < q {
        assert r[i] == line[i];
      } else {
        assert r[i] == line[i - q + k + 2];
      }
    }
    if k + 2 < |line| {
      assert r[|r| - 1] == line[|line| - 1];
    } else if q > 0 {
      assert r[|r| - 1] == line[q - 1];
    }
  }

  // ---------------------------------------------------------------------------
  // Uniqueness of the scanning helpers: their contracts determine them.

  lemma {:induction false} SpaceEndIs(s: string, i: nat, j: nat)
    requires i <= j <= |s|
    requires forall k :: i <= k < j ==> IsSpace(s[k])
    requires j == |s| || !IsSpace(s[j])
    ensures SpaceEnd(s, i) == j
  {
    SpaceEndSpec(s, i);
  }

  lemma {:induction false} RunEndIs(s: string, q: nat, j: nat)
    requires q <= j <= |s|
    requires forall k :: q <= k < j ==> s[k] != '(' && !IsLineTerminator(s[k])
    requires j == |s| || s[j] == '(' || IsLineTerminator(s[j])
    ensures RunEnd(s, q) == j
  {
    RunEndSpec(s, q);
  }

  lemma {:induction false} LastColonSpaceIs(s: string, lo: nat, hi: nat, r: Option<nat>)
    requires lo <= hi <= |s|
    requires r.Some? ==> lo <= r.value < hi && ColonSpaceAt(s, r.value)
    requires r.Some? ==> forall k :: r.value < k < hi ==> !ColonSpaceAt(s, k)
    requires r.None? ==> forall k :: lo <= k < hi ==> !ColonSpaceAt(s, k)
    ensures LastColonSpace(s, lo, hi) == r
  {
    LastColonSpaceSpec(s, lo, hi);
  }

  // ---------------------------------------------------------------------------
  // Scanner facts.

  /** Inside a line, where `^` does not hold, the text is copied unchanged. */
  lemma {:induction false} StripRestCopies(x: string, tail: string)
    requires NoLineTerminator(x)
    ensures StripRest(x + tail, false) == x + StripRest(tail, false)
  {
    if x != [] {
      assert !IsLineTerminator(x[0]);
      assert (x + tail)[1..] == x[1..] + tail;
      assert (x + tail)[0] == x[0];
      StripRestCopies(x[1..], tail);
      assert StripRest(x + tail, false) == [x[0]] + StripRest(x[1..] + tail, false);
      assert x == [x[0]] + x[1..];
    } else {
      assert x + tail == tail;
    }
  }

  lemma {:induction false} SpaceEndShift(pre: string, rest: string, m: nat)
    requires m <= |rest|
    ensures SpaceEnd(pre + rest, |pre| + m) == |pre| + SpaceEnd(rest, m)
  {
    var s := pre + rest;
    var q := SpaceEnd(rest, m);
    SpaceEndSpec(rest, m);
    forall k | |pre| + m <= k < |pre| + q ensures IsSpace(s[k]) {
      assert s[k] == rest[k - |pre|];
    }
    SpaceEndIs(s, |pre| + m, |pre| + q);
  }

  lemma {:induction false} RunEndShift(pre: string, rest: string, m: nat)
    requires m <= |rest|
    ensures RunEnd(pre + rest, |pre| + m) == |pre| + RunEnd(rest, m)
  {
    var s := pre + rest;
    var e := RunEnd(rest, m);
    RunEndSpec(rest, m);
    forall k | |pre| + m <= k < |pre| + e ensures s[k] != '(' && !IsLineTerminator(s[k]) {
      assert s[k] == rest[k - |pre|];
    }
    RunEndIs(s, |pre| + m, |pre| + e);
  }

  function ShiftIndex(r: Option<nat>, d: nat): Option<nat> {
    match r case None => None case Some(k) => Some(d + k)
  }

  lemma {:induction false} LastColonSpaceShift(pre: string, rest: string, lo: nat, hi: nat)
    requires lo <= hi <= |rest|
    ensures LastColonSpace(pre + rest, |pre| + lo, |pre| + hi) ==
            ShiftIndex(LastColonSpace(rest, lo, hi), |pre|)
  {
    var s := pre + rest;
    var d := |pre|;
    LastColonSpaceSpec(rest, lo, hi);
    forall k | d + lo <= k < d + hi ensures ColonSpaceAt(s, k) == ColonSpaceAt(rest, k - d) {
      assert s[k] == rest[k - d];
      if k + 1 < |s| { assert s[k + 1] == rest[k - d + 1]; }
    }
    LastColonSpaceIs(s, d + lo, d + hi, ShiftIndex(LastColonSpace(rest, lo, hi), d));
  }

  function ShiftMatch(r: Option<Match>, d: nat): Option<Match> {
    match r case None => None case Some(x) => Some(Match(d + x.keepEnd, d + x.end))
  }


  lemma {:induction false} SpaceEndLeading(pre: string, rest: string)
    requires forall k :: 0 <= k < |pre| ==> IsSpace(pre[k])
    ensures SpaceEnd(pre + rest, 0) == |pre| + SpaceEnd(rest, 0)
  {
    var s := pre + rest;
    SpaceEndShift(pre, rest, 0);
    SpaceEndSpec(s, |pre|);
    SpaceEndIs(s, 0, SpaceEnd(s, |pre|));
  }

  /** Leading white space does not change where the match ends up, only shifts it. */
  lemma {:induction false} MatchHereShift(pre: string, rest: string)
    requires forall k :: 0 <= k < |pre| ==> IsSpace(pre[k])
    ensures MatchHere(pre + rest) == ShiftMatch(MatchHere(rest), |pre|)
  {
    var q := SpaceEnd(rest, 0);
    SpaceEndLeading(pre, rest);
    RunEndShift(pre, rest, q);
    LastColonSpaceShift(pre, rest, q, RunEnd(rest, q));
  }

  // ---------------------------------------------------------------------------
  // The pass on one line agrees with StripLine.

  /** On a line, the match the scanner finds is the one StripLine describes. */
  lemma {:induction false} MatchHereOneLine(line: string)
    requires NoLineTerminator(line)
    ensures MatchHere(line) == match LastLabel(line)
      case None => None
      case Some(k) => Some(Match(SpaceEnd(line, 0), k + 2))
  {
    var q := SpaceEnd(line, 0);
    var p := ParenIndex(line);
    SpaceEndSpec(line, 0);
    assert p < q ==> IsSpace(line[p]);
    RunEndIs(line, q, p);
    LastColonSpaceIs(line, q, p, LastLabel(line));
  }

  lemma {:induction false} StripLabelsOneLine(line: string)
    requires NoLineTerminator(line)
    ensures StripLabels(line) == StripLine(line)
  {
    MatchHereOneLine(line);
    if line != [] {
      match MatchHere(line)
      case None =>
        assert !IsLineTerminator(line[0]);
        StripRestCopies(line[1..], []);
        assert line[1..] + [] == line[1..];
        assert line == [line[0]] + line[1..];
      case Some(x) =>
        var e := x.end;
        assert !IsLineTerminator(line[e - 1]);
        StripRestCopies(line[e..], []);
        assert line[e..] + [] == line[e..];
    }
  }

  // ---------------------------------------------------------------------------
  // The pass on a whole text, line by line.

  /** The rest of a line, its line break and the text after it: the text after the break starts afresh. */
  lemma {:induction false} StripRestLineTail(x: string, t: char, rest: string)
    requires NoLineTerminator(x) && IsLineTerminator(t)
    ensures StripRest(x + [t] + rest, false) == x + [t] + StripLabels(rest)
  {
    StripRestCopies(x, [t] + rest);
    assert x + [t] + rest == x + ([t] + rest);
    assert ([t] + rest)[1..] == rest;
  }

  /** The first step of the search when nothing matches at the start of the text. */
  lemma {:induction false} StripLabelsNoMatchStep(s: string)
    requires s != [] && MatchHere(s).None?
    ensures StripLabels(s) == [s[0]] + StripRest(s[1..], IsLineTerminator(s[0]))
  {
  }

  /** The first step of the search when the expression matches at the start of the text. */
  lemma {:induction false} StripLabelsMatchStep(s: string, m: Match, after: string, lineStart: bool)
    requires MatchHere(s) == Some(m)
    requires s[m.end..] == after && lineStart == IsLineTerminator(s[m.end - 1])
    ensures StripLabels(s) == s[..m.keepEnd] + StripRest(after, lineStart)
  {
  }

  /** A first line with a character that is not white space keeps any match to itself. */
  lemma {:induction false} MatchHereWordLine(line: string, t: char, rest: string)
    requires NoLineTerminator(line) && IsLineTerminator(t)
    requires line == [] || line[|line| - 1] != ':'
    requires SpaceEnd(line, 0) < |line|
    ensures MatchHere(line + [t] + rest) == MatchHere(line)
  {
    var s := line + [t] + rest;
    var q := SpaceEnd(line, 0);
    SpaceEndSpec(line, 0);
    SpaceEndIs(s, 0, q);
    var e := RunEnd(line, q);
    RunEndSpec(line, q);
    RunEndIs(s, q, e);
    LastColonSpaceSpec(line, q, e);
    forall k | q <= k < e ensures ColonSpaceAt(s, k) == ColonSpaceAt(line, k) {
      if k + 1 == |line| {
        assert s[k + 1] == t;
      }
    }
    LastColonSpaceIs(s, q, e, LastColonSpace(line, q, e));
  }

  /** No match at the start of a first line: that line is copied through its line break. */
  lemma {:induction false} StripLabelsLineNoMatch(line: string, t: char, rest: string)
    requires NoLineTerminator(line) && IsLineTerminator(t)
    requires MatchHere(line + [t] + rest).None?
    ensures StripLabels(line + [t] + rest) == line + [t] + StripLabels(rest)
  {
    var s := line + [t] + rest;
    var tail := StripRest(s[1..], IsLineTerminator(s[0]));
    assert StripLabels(s) == [s[0]] + tail by {
      StripLabelsNoMatchStep(s);
    }
    if line == [] {
      assert s[1..] == rest;
    } else {
      var x := line[1..];
      assert tail == x + [t] + StripLabels(rest) by {
        assert s[1..] == x + [t] + rest;
        StripRestLineTail(x, t, rest);
      }
      Regroup([line[0]], x + [t], StripLabels(rest));
      assert line == [line[0]] + x;
    }
  }

  /** A match inside the first line removes it from that line only. */
  lemma {:induction false} StripLabelsLineMatch(line: string, t: char, rest: string, x: Match)
    requires NoLineTerminator(line) && IsLineTerminator(t)
    requires MatchHere(line + [t] + rest) == Some(x) && x.end <= |line|
    ensures StripLabels(line + [t] + rest) == line[..x.keepEnd] + line[x.end..] + [t] + StripLabels(rest)
  {
    var s := line + [t] + rest;
    assert s[x.end..] == line[x.end..] + [t] + rest;
    StripLabelsMatchStep(s, x, line[x.end..] + [t] + rest, false);
    StripRestLineTail(line[x.end..], t, rest);
    assert s[..x.keepEnd] == line[..x.keepEnd];
  }

  /** Two texts whose matches end alike are stripped alike after their kept white space. */
  lemma {:induction false} StripLabelsSameTail(s: string, u: string, pre: string, m: Match, x: Match)
    requires MatchHere(s) == Some(m) && MatchHere(u) == Some(x)
    requires s[m.end..] == u[x.end..] && s[m.end - 1] == u[x.end - 1]
    requires s[..m.keepEnd] == pre + u[..x.keepEnd]
    ensures StripLabels(s) == pre + StripLabels(u)
  {
    var b := IsLineTerminator(u[x.end - 1]);
    var tail := StripRest(u[x.end..], b);
    assert StripLabels(s) == s[..m.keepEnd] + tail by {
      StripLabelsMatchStep(s, m, u[x.end..], b);
    }
    assert StripLabels(u) == u[..x.keepEnd] + tail by {
      StripLabelsMatchStep(u, x, u[x.end..], b);
    }
    Regroup(pre, u[..x.keepEnd], tail);
  }

  /** A match that starts in the next line leaves the leading white space before it in place. */
  lemma {:induction false} StripLabelsLeadingSpace(pre: string, rest: string, x: Match)
    requires MatchHere(rest) == Some(x)
    requires MatchHere(pre + rest) == Some(Match(|pre| + x.keepEnd, |pre| + x.end))
    ensures StripLabels(pre + rest) == pre + StripLabels(rest)
  {
    ShiftedSlices(pre, rest, x.keepEnd, x.end);
    StripLabelsSameTail(pre + rest, rest, pre, Match(|pre| + x.keepEnd, |pre| + x.end), x);
  }

  /** Slices of `rest` seen through `pre + rest`. */
  lemma ShiftedSlices(pre: string, rest: string, a: nat, b: nat)
    requires a < b <= |rest|
    ensures (pre + rest)[|pre| + b..] == rest[b..]
    ensures (pre + rest)[|pre| + b - 1] == rest[b - 1]
    ensures (pre + rest)[..|pre| + a] == pre + rest[..a]
  {
  }

  lemma {:induction false} StripLabelsSplitWord(line: string, t: char, rest: string)
    requires NoLineTerminator(line) && IsLineTerminator(t)
    requires line == [] || line[|line| - 1] != ':'
    requires SpaceEnd(line, 0) < |line|
    ensures StripLabels(line + [t] + rest) == StripLine(line) + [t] + StripLabels(rest)
  {
    MatchHereWordLine(line, t, rest);
    MatchHereOneLine(line);
    match MatchHere(line)
    case None =>
      StripLabelsLineNoMatch(line, t, rest);
    case Some(x) =>
      StripLabelsLineMatch(line, t, rest, x);
  }

  /** A first line of white space only joins the leading white space of the next line. */
  lemma {:induction false} StripLabelsSplitBlank(line: string, t: char, rest: string)
    requires NoLineTerminator(line) && IsLineTerminator(t)
    requires SpaceEnd(line, 0) == |line|
    ensures StripLabels(line + [t] + rest) == StripLine(line) + [t] + StripLabels(rest)
  {
    assert StripLine(line) == line by {
      SpaceEndSpec(line, 0);
      assert LastLabel(line).Some? ==> IsSpace(line[LastLabel(line).value]);
    }
    assert forall k :: 0 <= k < |line + [t]| ==> IsSpace((line + [t])[k]) by {
      SpaceEndSpec(line, 0);
    }
    BlankLineStep(line, t, rest);
  }

  lemma {:induction false} BlankLineStep(line: string, t: char, rest: string)
    requires NoLineTerminator(line) && IsLineTerminator(t)
    requires forall k :: 0 <= k < |line + [t]| ==> IsSpace((line + [t])[k])
    ensures StripLabels(line + [t] + rest) == line + [t] + StripLabels(rest)
  {
    MatchHereShift(line + [t], rest);
    match MatchHere(rest)
    case None =>
      StripLabelsLineNoMatch(line, t, rest);
    case Some(x) =>
      StripLabelsLeadingSpace(line + [t], rest, x);
  }

  /**
   * Unless the first line ends with `:`, it is stripped on its own and the
   * text after its line break is stripped as if it stood alone.
   */
  lemma {:induction false} StripLabelsSplit(line: string, t: char, rest: string)
    requires NoLineTerminator(line) && IsLineTerminator(t)
    requires line == [] || line[|line| - 1] != ':'
    ensures StripLabels(line + [t] + rest) == StripLine(line) + [t] + StripLabels(rest)
  {
    if SpaceEnd(line, 0) < |line| {
      StripLabelsSplitWord(line, t, rest);
    } else {
      StripLabelsSplitBlank(line, t, rest);
    }
  }

  // ---------------------------------------------------------------------------
  // The pass on a whole text: the lines one by one.

  /** No `:` directly before a line break: the break cannot serve as the `\s` after a label. */
  predicate NoColonBreak(s: string) {
    forall k :: 0 <= k < |s| - 1 ==> s[k] == ':' ==> !IsLineTerminator(s[k + 1])
  }

  /** Position of the first line terminator at or after `i`, or the length. */
  function LineEnd(s: string, i: nat): (j: nat)
    requires i <= |s|
    ensures i <= j <= |s|
    ensures forall k :: i <= k < j ==> !IsLineTerminator(s[k])
    ensures j == |s| || IsLineTerminator(s[j])
    decreases |s| - i
  {
    if i == |s| || IsLineTerminator(s[i]) then i else LineEnd(s, i + 1)
  }

  /** The pass stated line by line: each line is stripped on its own and the line breaks stay. */
  function StripByLines(s: string): (r: string)
    ensures |r| <= |s|
    decreases |s|
  {
    var i := LineEnd(s, 0);
    if i == |s| then StripLine(s) else StripLine(s[..i]) + [s[i]] + StripByLines(s[i + 1..])
  }

  lemma {:induction false} StripByLinesCons(line: string, t: char, rest: string)
    requires NoLineTerminator(line) && IsLineTerminator(t)
    ensures StripByLines(line + [t] + rest) == StripLine(line) + [t] + StripByLines(rest)
  {
    var s := line + [t] + rest;
    assert s[|line|] == t;
    assert LineEnd(s, 0) == |line|;
    assert s[..|line|] == line && s[|line| + 1..] == rest;
  }

  /**
   * When no `:` stands right before a line break, the scanner and the
   * line-by-line statement agree on every text.
   */
  lemma {:induction false} StripLabelsByLines(s: string)
    requires NoColonBreak(s)
    ensures StripLabels(s) == StripByLines(s)
    decreases |s|
  {
    var i := LineEnd(s, 0);
    if i == |s| {
      StripLabelsOneLine(s);
    } else {
      var line, t, rest := s[..i], s[i], s[i + 1..];
      assert s == line + [t] + rest;
      assert line == [] || line[|line| - 1] != ':' by {
        assert i > 0 ==> s[i - 1] == line[|line| - 1];
      }
      StripLabelsSplit(line, t, rest);
      StripByLinesCons(line, t, rest);
      NoColonBreakRest(s, i);
      StripLabelsByLines(rest);
    }
  }

  /** A line without a `:` and white space before its first `(`. */
  predicate Unlabelled(line: string) {
    forall k :: 0 <= k < ParenIndex(line) ==> !ColonSpaceAt(line, k)
  }

  predicate EveryLineUnlabelled(s: string)
    decreases |s|
  {
    var i := LineEnd(s, 0);
    Unlabelled(s[..i]) && (i == |s| || EveryLineUnlabelled(s[i + 1..]))
  }

  lemma {:induction false} StripLineUnchanged(line: string)
    ensures StripLine(line) == line <==> Unlabelled(line)
  {
    match LastLabel(line)
    case None =>
    case Some(k) =>
      assert !Unlabelled(line) by { assert ColonSpaceAt(line, k); }
  }

  lemma {:induction false} StripByLinesUnchanged(s: string)
    ensures StripByLines(s) == s <==> EveryLineUnlabelled(s)
    decreases |s|
  {
    var i := LineEnd(s, 0);
    if i == |s| {
      assert s[..i] == s;
      StripLineUnchanged(s);
    } else {
      var line, t, rest := s[..i], s[i], s[i + 1..];
      assert s == line + [t] + rest;
      StripLineUnchanged(line);
      StripByLinesUnchanged(rest);
      var r := StripByLines(s);
      assert r == StripLine(line) + [t] + StripByLines(rest);
      if StripLine(line) == line {
        assert r == s <==> StripByLines(rest) == rest by {
          assert r[i + 1..] == StripByLines(rest);
        }
      } else {
        assert |r| < |s|;
      }
    }
  }

  /**
   * The pass leaves a text unchanged exactly when none of its lines has a
   * `:` and white space before its first `(`.
   */
  lemma {:induction false} StripLabelsUnchanged(s: string)
    requires NoColonBreak(s)
    ensures StripLabels(s) == s <==> EveryLineUnlabelled(s)
  {
    StripLabelsByLines(s);
    StripByLinesUnchanged(s);
  }

  /** A stripped line has nothing left to strip. */
  lemma {:induction false} StripLineIdempotent(line: string)
    ensures StripLine(StripLine(line)) == StripLine(line)
  {
    var r := StripLine(line);
    match LastLabel(line)
    case None =>
    case Some(k) =>
      StrippedLineUnlabelled(line, k);
      StripLineUnchanged(r);
  }

  lemma {:induction false} StrippedLineUnlabelled(line: string, k: nat)
    requires LastLabel(line) == Some(k)
    ensures Unlabelled(StripLine(line))
  {
    LabelAfterSpace(line, k);
    CutLineUnlabelled(line, k, SpaceEnd(line, 0), StripLine(line));
  }

  lemma {:induction false} CutLineUnlabelled(line: string, k: nat, q: nat, r: string)
    requires LastLabel(line) == Some(k)
    requires q <= k && r == line[..q] + line[k + 2..]
    requires forall i :: 0 <= i < q ==> line[i] != ':'
    ensures Unlabelled(r)
  {
    forall j | 0 <= j < ParenIndex(r) ensures !ColonSpaceAt(r, j) {
      StrippedLineNoLabelAt(line, k, q, r, j);
    }
  }

  /** Position `j` of a stripped line, before its first `(`, holds no label colon. */
  lemma {:induction false} StrippedLineNoLabelAt(line: string, k: nat, q: nat, r: string, j: nat)
    requires LastLabel(line) == Some(k)
    requires q <= k && r == line[..q] + line[k + 2..]
    requires forall i :: 0 <= i < q ==> line[i] != ':'
    requires j < ParenIndex(r)
    ensures !ColonSpaceAt(r, j)
  {
    var p := ParenIndex(line);
    if j < q {
      assert r[j] == line[j];
    } else {
      var j': nat := j - q + k + 2;
      assert r[j] == line[j'];
      assert j + 1 < |r| ==> r[j + 1] == line[j' + 1];
      assert j' < p by {
        if p < |line| {
          assert r[q + p - k - 2] == line[p];
        }
      }
      assert !ColonSpaceAt(line, j');
    }
  }

  lemma {:induction false} StripByLinesIdempotent(s: string)
    ensures StripByLines(StripByLines(s)) == StripByLines(s)
    decreases |s|
  {
    var i := LineEnd(s, 0);
    if i == |s| {
      var r := StripLine(s);
      assert NoLineTerminator(r);
      assert LineEnd(r, 0) == |r|;
      StripLineIdempotent(s);
    } else {
      var line, t, rest := s[..i], s[i], s[i + 1..];
      assert s == line + [t] + rest;
      assert NoLineTerminator(StripLine(line));
      StripByLinesCons(StripLine(line), t, StripByLines(rest));
      StripLineIdempotent(line);
      StripByLinesIdempotent(rest);
    }
  }

  /** What follows a line break of a text without a `:` before a break has none either. */
  lemma {:induction false} NoColonBreakRest(s: string, i: nat)
    requires NoColonBreak(s) && i < |s|
    ensures NoColonBreak(s[i + 1..])
  {
    var rest := s[i + 1..];
    forall k | 0 <= k < |rest| - 1 ensures rest[k] == ':' ==> !IsLineTerminator(rest[k + 1]) {
      assert rest[k] == s[i + 1 + k] && rest[k + 1] == s[i + 2 + k];
    }
  }

  /** A line not ending in `:`, a break, then a text without a `:` before a break. */
  lemma {:induction false} NoColonBreakJoin(a: string, t: char, b: string)
    requires NoLineTerminator(a) && (a == [] || a[|a| - 1] != ':') && NoColonBreak(b)
    requires IsLineTerminator(t)
    ensures NoColonBreak(a + [t] + b)
  {
    var r := a + [t] + b;
    forall k | 0 <= k < |r| - 1 ensures r[k] == ':' ==> !IsLineTerminator(r[k + 1]) {
      if k + 1 < |a| {
        assert r[k + 1] == a[k + 1];
      } else if k > |a| {
        assert r[k] == b[k - |a| - 1] && r[k + 1] == b[k - |a|];
      }
    }
  }

  /** The text before the first line break is one line. */
  lemma {:induction false} FirstLine(s: string)
    ensures NoLineTerminator(s[..LineEnd(s, 0)])
  {
    var i := LineEnd(s, 0);
    forall k | 0 <= k < i ensures !IsLineTerminator(s[..i][k]) {
      assert s[..i][k] == s[k];
    }
  }

  /** Stripping a line does not make up a line break. */
  lemma {:induction false} StripLineNoLineTerminator(line: string)
    requires NoLineTerminator(line)
    ensures NoLineTerminator(StripLine(line))
  {
    var a := StripLine(line);
    forall k | 0 <= k < |a| ensures !IsLineTerminator(a[k]) {
      assert a[k] in line;
    }
  }

  /** Stripping keeps `:` away from line breaks. */
  lemma {:induction false} StripByLinesNoColonBreak(s: string)
    requires NoColonBreak(s)
    ensures NoColonBreak(StripByLines(s))
    decreases |s|
  {
    var i := LineEnd(s, 0);
    if i < |s| {
      var line, t, rest := s[..i], s[i], s[i + 1..];
      var a, b := StripLine(line), StripByLines(rest);
      assert NoColonBreak(b) by {
        NoColonBreakRest(s, i);
        StripByLinesNoColonBreak(rest);
      }
      assert NoLineTerminator(a) by {
        FirstLine(s);
        StripLineNoLineTerminator(line);
      }
      assert a == [] || a[|a| - 1] != ':' by {
        assert i > 0 ==> s[i - 1] == line[|line| - 1];
      }
      NoColonBreakJoin(a, t, b);
    }
  }

  /**
   * Under the same condition the pass is idempotent: a second pass over its
   * output changes nothing.
   */
  lemma {:induction false} StripLabelsIdempotent(s: string)
    requires NoColonBreak(s)
    ensures NoColonBreak(StripLabels(s))
    ensures StripLabels(StripLabels(s)) == StripLabels(s)
  {
    StripLabelsByLines(s);
    StripByLinesNoColonBreak(s);
    StripLabelsByLines(StripByLines(s));
    StripByLinesIdempotent(s);
  }

  /** A labelled selection loses its label; leading white space stays. */
  lemma StripLineLabelled()
    ensures StripLine(" u: f(x)") == " f(x)"
  {
    LabelledLine();
    StripLineCut(" u: f(x)", 2);
    assert " u: f(x)"[..1] + " u: f(x)"[4..] == " f(x)";
  }

  lemma LabelledLine()
    ensures LastLabel(" u: f(x)") == Some(2) && SpaceEnd(" u: f(x)", 0) == 1
  {
    LabelledLineLabel();
    LabelledLineSpace();
  }

  lemma LabelledLineSpace()
    ensures SpaceEnd(" u: f(x)", 0) == 1
  {
    assert !IsSpace('u');
    SpaceEndIs(" u: f(x)", 0, 1);
  }

  lemma LabelledLineLabel()
    ensures LastLabel(" u: f(x)") == Some(2)
  {
    var a := " u: f(x)";
    assert ParenIndex(a) == 5 by {
      assert ParenIndex(a[5..]) == 0;
    }
    LastColonSpaceIs(a, 0, 5, Some(2));
  }

  lemma StripLineCut(line: string, k: nat)
    requires LastLabel(line) == Some(k)
    ensures StripLine(line) == line[..SpaceEnd(line, 0)] + line[k + 2..]
  {
  }

  /**
   * Everything from the leading white space up to the last `:` and white
   * space goes, not just a field label: an argument on its own line keeps
   * only its value.
   */
  lemma StripLineArgument()
    ensures StripLine("  id: $id") == "  $id"
  {
    ArgumentCut();
    ArgumentSlices();
  }

  lemma ArgumentSlices()
    ensures "  id: $id"[..2] + "  id: $id"[6..] == "  $id"
  {
  }

  lemma ArgumentCut()
    ensures StripLine("  id: $id") == "  id: $id"[..2] + "  id: $id"[6..]
  {
    ArgumentLine();
    StripLineCut("  id: $id", 4);
  }

  lemma ArgumentLine()
    ensures LastLabel("  id: $id") == Some(4) && SpaceEnd("  id: $id", 0) == 2
  {
    ArgumentLineLabel();
    ArgumentLineSpace();
  }

  lemma ArgumentLineSpace()
    ensures SpaceEnd("  id: $id", 0) == 2
  {
    assert !IsSpace('i');
    SpaceEndIs("  id: $id", 0, 2);
  }

  lemma ArgumentLineLabel()
    ensures LastLabel("  id: $id") == Some(4)
  {
    var a := "  id: $id";
    assert ParenIndex(a) == 9 by {
      assert ParenIndex(a[5..]) == 4 by {
        assert ParenIndex(a[9..]) == 0;
      }
    }
    LastColonSpaceIs(a, 0, 9, Some(4));
  }

  /** A `:` after the first `(` is not a label. */
  lemma StripLineUnlabelledExample()
    ensures StripLine("f(x: 1)") == "f(x: 1)"
  {
    var b := "f(x: 1)";
    assert ParenIndex(b) == 1 by {
      assert ParenIndex(b[1..]) == 0;
    }
    assert !ColonSpaceAt(b, 0);
    StripLineUnchanged(b);
  }
}
