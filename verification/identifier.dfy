/**
 * The export identifier derived from a root field name:
 *
 *     field.replace(/\.?([A-Z]+)/g, (x, y) => '_' + y).replace(/^_/, '').toUpperCase()
 *
 * The first replacement puts `_` in front of every maximal run of upper-case
 * letters, swallowing one `.` right before the run; the second drops one
 * leading `_`; the last upper-cases everything (`userById` gives
 * `USER_BY_ID`).
 *
 * `UnderscoreFrom` is the global search of the first replacement; `Piece`
 * states what becomes of each character of the name on its own, and
 * `UnderscoreFromPieces` shows that the two agree.
 */
module Identifier {
  import opened Ascii
  import opened Strings

  /** The end of the maximal run of upper-case letters starting at `i`: the greedy `[A-Z]+`. */
  function UpperRunEnd(s: string, i: nat): (j: nat)
    requires i <= |s|
    ensures i <= j <= |s|
    ensures forall k :: i <= k < j ==> IsUpper(s[k])
    ensures j == |s| || !IsUpper(s[j])
    decreases |s| - i
  {
    if i < |s| && IsUpper(s[i]) then UpperRunEnd(s, i + 1) else i
  }

  /** A `.` that the expression takes as the optional `\.?` in front of a run. */
  predicate DotBeforeRun(s: string, i: nat) {
    i + 1 < |s| && s[i] == '.' && IsUpper(s[i + 1])
  }

  /** The first replacement, resuming the search at `i`. */
  function UnderscoreFrom(s: string, i: nat): (r: string)
    requires i <= |s|
    decreases |s| - i
  {
    if i == |s| then []
    else if DotBeforeRun(s, i) then
      var j := UpperRunEnd(s, i + 1);
      ['_'] + s[i + 1..j] + UnderscoreFrom(s, j)
    else if IsUpper(s[i]) then
      var j := UpperRunEnd(s, i);
      ['_'] + s[i..j] + UnderscoreFrom(s, j)
    else [s[i]] + UnderscoreFrom(s, i + 1)
  }

  /** An upper-case letter that opens a run: the `_` goes in front of it. */
  predicate RunStart(s: string, i: nat)
    requires i < |s|
  {
    IsUpper(s[i]) && !(i > 0 && (IsUpper(s[i - 1]) || s[i - 1] == '.'))
  }

  /** What the first replacement makes of the character at `i`. */
  function Piece(s: string, i: nat): (r: string)
    requires i < |s|
  {
    if DotBeforeRun(s, i) then ['_']
    else if RunStart(s, i) then ['_', s[i]]
    else [s[i]]
  }

  function PiecesFrom(s: string, i: nat): string
    requires i <= |s|
    decreases |s| - i
  {
    if i == |s| then [] else Piece(s, i) + PiecesFrom(s, i + 1)
  }

  /** A position where the search can stand: never inside a run, nor just after the `.` in front of one. */
  predicate ScanPoint(s: string, i: nat)
    requires i <= |s|
  {
    i == |s| || !IsUpper(s[i]) || RunStart(s, i)
  }

  /** The letters of a run after its first contribute themselves only. */
  lemma {:induction false} PiecesInRun(s: string, a: nat, b: nat)
    requires 0 < a <= b <= |s|
    requires forall k :: a <= k < b ==> IsUpper(s[k])
    requires IsUpper(s[a - 1]) || s[a - 1] == '.'
    ensures PiecesFrom(s, a) == s[a..b] + PiecesFrom(s, b)
    decreases b - a
  {
    if a < b {
      PiecesInRun(s, a + 1, b);
    }
  }

  /** A run opened by its `.`: the `.` becomes the `_`. */
  lemma {:induction false} PiecesDotRun(s: string, i: nat)
    requires DotBeforeRun(s, i)
    ensures PiecesFrom(s, i) == ['_'] + s[i + 1..UpperRunEnd(s, i + 1)] + PiecesFrom(s, UpperRunEnd(s, i + 1))
  {
    var j := UpperRunEnd(s, i + 1);
    PiecesAtDot(s, i);
    PiecesInRun(s, i + 1, j);
    Regroup(['_'], s[i + 1..j], PiecesFrom(s, j));
  }

  lemma PiecesAtDot(s: string, i: nat)
    requires DotBeforeRun(s, i)
    ensures PiecesFrom(s, i) == ['_'] + PiecesFrom(s, i + 1)
  {
  }

  /** A run opened by its first letter: the `_` goes in front of it. */
  lemma {:induction false} PiecesRun(s: string, i: nat)
    requires i < |s| && RunStart(s, i)
    ensures PiecesFrom(s, i) == ['_'] + s[i..UpperRunEnd(s, i)] + PiecesFrom(s, UpperRunEnd(s, i))
  {
    var j := UpperRunEnd(s, i);
    PiecesAtRunStart(s, i);
    PiecesInRun(s, i + 1, j);
    assert s[i..j] == [s[i]] + s[i + 1..j];
    Regroup([s[i]], s[i + 1..j], PiecesFrom(s, j));
    Regroup(['_'], s[i..j], PiecesFrom(s, j));
  }

  lemma PiecesAtRunStart(s: string, i: nat)
    requires i < |s| && RunStart(s, i)
    ensures PiecesFrom(s, i) == ['_'] + ([s[i]] + PiecesFrom(s, i + 1))
  {
  }

  /** The search agrees with the character-by-character statement. */
  lemma {:induction false} UnderscoreFromPieces(s: string, i: nat)
    requires i <= |s| && ScanPoint(s, i)
    ensures UnderscoreFrom(s, i) == PiecesFrom(s, i)
    decreases |s| - i
  {
    if i < |s| {
      if DotBeforeRun(s, i) {
        PiecesDotRun(s, i);
        UnderscoreFromPieces(s, UpperRunEnd(s, i + 1));
      } else if IsUpper(s[i]) {
        PiecesRun(s, i);
        UnderscoreFromPieces(s, UpperRunEnd(s, i));
      } else {
        UnderscoreFromPieces(s, i + 1);
      }
    }
  }

  /** The second replacement, `/^_/`: one leading `_` goes. */
  function DropLeadingUnderscore(s: string): (r: string)
    ensures s != [] && s[0] == '_' ==> s == "_" + r
    ensures !(s != [] && s[0] == '_') ==> r == s
  {
    if s != [] && s[0] == '_' then s[1..] else s
  }

  /** The export identifier for a root field. */
  function Derive(field: string): (id: string)
    ensures forall i :: 0 <= i < |id| ==> !IsLower(id[i])
  {
    UpperString(DropLeadingUnderscore(UnderscoreFrom(field, 0)))
  }

  // ---------------------------------------------------------------------------
  // Counting the underscores.

  predicate NoDot(s: string) {
    forall k :: 0 <= k < |s| ==> s[k] != '.'
  }

  /** The number of runs of upper-case letters that open at or after `i`. */
  function RunStartsFrom(s: string, i: nat): nat
    requires i <= |s|
    decreases |s| - i
  {
    if i == |s| then 0 else (if RunStart(s, i) then 1 else 0) + RunStartsFrom(s, i + 1)
  }

  /** Without dots, a character gains a `_` exactly when it opens a run. */
  lemma {:induction false} PieceUnderscores(s: string, i: nat)
    requires i < |s| && NoDot(s)
    ensures Count(Piece(s, i), '_') == Count([s[i]], '_') + (if RunStart(s, i) then 1 else 0)
  {
    assert !DotBeforeRun(s, i);
    if RunStart(s, i) {
      assert Piece(s, i)[1..] == [s[i]];
    }
  }

  lemma {:induction false} PiecesUnderscores(s: string, i: nat)
    requires i <= |s| && NoDot(s)
    ensures Count(PiecesFrom(s, i), '_') == Count(s[i..], '_') + RunStartsFrom(s, i)
    decreases |s| - i
  {
    if i < |s| {
      PiecesUnderscores(s, i + 1);
      PieceUnderscores(s, i);
      CountPieces(s, i);
      CountSuffix(s, i);
    }
  }

  lemma PiecesCons(s: string, i: nat)
    requires i < |s|
    ensures PiecesFrom(s, i) == Piece(s, i) + PiecesFrom(s, i + 1)
  {
  }

  lemma SuffixCons(s: string, i: nat)
    requires i < |s|
    ensures s[i..] == [s[i]] + s[i + 1..]
  {
  }

  lemma CountPieces(s: string, i: nat)
    requires i < |s|
    ensures Count(PiecesFrom(s, i), '_') == Count(Piece(s, i), '_') + Count(PiecesFrom(s, i + 1), '_')
  {
    PiecesCons(s, i);
    CountAppend(Piece(s, i), PiecesFrom(s, i + 1), '_');
  }

  lemma CountSuffix(s: string, i: nat)
    requires i < |s|
    ensures Count(s[i..], '_') == Count([s[i]], '_') + Count(s[i + 1..], '_')
  {
    SuffixCons(s, i);
    CountAppend([s[i]], s[i + 1..], '_');
  }

  /**
   * A name without dots gains one `_` per run of upper-case letters and
   * loses the one leading `_` the second replacement removes.
   */
  lemma {:induction false} DeriveUnderscores(field: string)
    requires NoDot(field)
    ensures var dropped := if field != [] && (field[0] == '_' || IsUpper(field[0])) then 1 else 0;
      Count(Derive(field), '_') == Count(field, '_') + RunStartsFrom(field, 0) - dropped
  {
    var u := UnderscoreFrom(field, 0);
    UnderscoreFromPieces(field, 0);
    PiecesUnderscores(field, 0);
    assert field[0..] == field;
    UpperStringKeepsCount(DropLeadingUnderscore(u), '_');
    if field != [] {
      assert u == Piece(field, 0) + PiecesFrom(field, 1);
      var d := DropLeadingUnderscore(u);
      if u[0] == '_' {
        assert d == u[1..];
      }
    }
  }

  // ---------------------------------------------------------------------------
  // The letters survive.

  /** `s` without its underscores. */
  function NoUnderscores(s: string): (r: string)
    ensures '_' !in r
  {
    if s == [] then [] else (if s[0] == '_' then [] else [s[0]]) + NoUnderscores(s[1..])
  }

  lemma {:induction false} NoUnderscoresAppend(a: string, b: string)
    ensures NoUnderscores(a + b) == NoUnderscores(a) + NoUnderscores(b)
  {
    if a != [] {
      assert (a + b)[1..] == a[1..] + b;
      NoUnderscoresAppend(a[1..], b);
    } else {
      assert a + b == b;
    }
  }

  /** Without dots, a piece is its character give or take a `_`. */
  lemma {:induction false} PieceLetters(s: string, i: nat)
    requires i < |s| && NoDot(s)
    ensures NoUnderscores(Piece(s, i)) == NoUnderscores([s[i]])
  {
    assert !DotBeforeRun(s, i);
    if RunStart(s, i) {
      assert Piece(s, i) == ['_'] + [s[i]];
      NoUnderscoresAppend(['_'], [s[i]]);
    }
  }

  lemma {:induction false} LettersStep(whole: string, p: string, rest: string, suffix: string, c: char, tail: string)
    requires whole == p + rest && suffix == [c] + tail
    requires NoUnderscores(p) == NoUnderscores([c]) && NoUnderscores(rest) == NoUnderscores(tail)
    ensures NoUnderscores(whole) == NoUnderscores(suffix)
  {
    NoUnderscoresAppend(p, rest);
    NoUnderscoresAppend([c], tail);
  }

  lemma {:induction false} PiecesLetters(s: string, i: nat)
    requires i <= |s| && NoDot(s)
    ensures NoUnderscores(PiecesFrom(s, i)) == NoUnderscores(s[i..])
    decreases |s| - i
  {
    if i < |s| {
      PiecesLetters(s, i + 1);
      PieceLetters(s, i);
      PiecesCons(s, i);
      SuffixCons(s, i);
      LettersStep(PiecesFrom(s, i), Piece(s, i), PiecesFrom(s, i + 1), s[i..], s[i], s[i + 1..]);
    }
  }

  lemma {:induction false} UpperCharNoUnderscores(c: char)
    ensures NoUnderscores([ToUpper(c)]) == UpperString(NoUnderscores([c]))
  {
    assert [c][1..] == [] && [ToUpper(c)][1..] == [];
    if c != '_' {
      assert UpperString([c]) == [ToUpper(c)] by { assert [c][1..] == []; }
    }
  }

  lemma {:induction false} UpperStringNoUnderscores(s: string)
    ensures NoUnderscores(UpperString(s)) == UpperString(NoUnderscores(s))
  {
    if s != [] {
      var c, t := s[0], s[1..];
      assert s == [c] + t;
      UpperStringNoUnderscores(t);
      UpperCharNoUnderscores(c);
      NoUnderscoresAppend([ToUpper(c)], UpperString(t));
      NoUnderscoresAppend([c], t);
      UpperStringAppend(NoUnderscores([c]), NoUnderscores(t));
    }
  }

  /**
   * Apart from the underscores, a name without dots comes out as its
   * upper-cased self: the derivation only moves underscores.
   */
  lemma {:induction false} DeriveKeepsLetters(field: string)
    requires NoDot(field)
    ensures NoUnderscores(Derive(field)) == UpperString(NoUnderscores(field))
  {
    var u := UnderscoreFrom(field, 0);
    UnderscoreFromPieces(field, 0);
    PiecesLetters(field, 0);
    assert field[0..] == field;
    var d := DropLeadingUnderscore(u);
    assert NoUnderscores(d) == NoUnderscores(u) by {
      if u != [] && u[0] == '_' {
        NoUnderscoresAppend("_", d);
      }
    }
    UpperStringNoUnderscores(d);
  }

  // ---------------------------------------------------------------------------
  // Shape of the identifier.

  /** A GraphQL name gives an identifier made of `[A-Z0-9_]`. */
  lemma {:induction false} DeriveOfName(field: string)
    requires IsName(field)
    ensures forall i :: 0 <= i < |Derive(field)| ==>
      IsUpper(Derive(field)[i]) || IsDigit(Derive(field)[i]) || Derive(field)[i] == '_'
  {
    var u := UnderscoreFrom(field, 0);
    UnderscoreFromPieces(field, 0);
    PiecesWordChars(field, 0);
    var d := DropLeadingUnderscore(u);
    forall i | 0 <= i < |d| ensures IsWordChar(d[i]) {
      if u != [] && u[0] == '_' {
        assert d[i] == u[i + 1];
      }
    }
  }

  lemma {:induction false} PiecesWordChars(s: string, i: nat)
    requires i <= |s|
    requires forall k :: 0 <= k < |s| ==> IsWordChar(s[k])
    ensures forall k :: 0 <= k < |PiecesFrom(s, i)| ==> IsWordChar(PiecesFrom(s, i)[k])
    decreases |s| - i
  {
    if i < |s| {
      PiecesWordChars(s, i + 1);
    }
  }

  /** The three replacements one after the other, for worked examples. */
  lemma DeriveFrom(field: string, u: string, d: string, id: string)
    requires UnderscoreFrom(field, 0) == u && DropLeadingUnderscore(u) == d
    requires |d| == |id| && forall i :: 0 <= i < |d| ==> ToUpper(d[i]) == id[i]
    ensures Derive(field) == id
  {
    UpperStringIs(d, id);
  }

  /** The identifier of a typical query field. */
  lemma DeriveUserById()
    ensures Derive("userById") == "USER_BY_ID"
  {
    UnderscoreUserById();
    DeriveFrom("userById", "user_By_Id", "user_By_Id", "USER_BY_ID");
  }

  lemma UnderscoreUserById()
    ensures UnderscoreFrom("userById", 0) == "user_By_Id"
  {
    var s := "userById";
    assert UnderscoreFrom(s, 7) == "d";
    assert UnderscoreFrom(s, 6) == "_Id";
    assert UnderscoreFrom(s, 5) == "y_Id";
    assert UnderscoreFrom(s, 4) == "_By_Id";
    assert UnderscoreFrom(s, 2) == "er_By_Id";
  }

  lemma DeriveCreateUser()
    ensures Derive("createUser") == "CREATE_USER"
  {
    UnderscoreCreateUser();
    DeriveFrom("createUser", "create_User", "create_User", "CREATE_USER");
  }

  lemma UnderscoreCreateUser()
    ensures UnderscoreFrom("createUser", 0) == "create_User"
  {
    var s := "createUser";
    assert UnderscoreFrom(s, 7) == "ser";
    assert UnderscoreFrom(s, 6) == "_User";
    assert UnderscoreFrom(s, 4) == "te_User";
    assert UnderscoreFrom(s, 2) == "eate_User";
  }

  /** A name without capitals is only upper-cased. */
  lemma DeriveId()
    ensures Derive("id") == "ID"
  {
    assert UnderscoreFrom("id", 0) == "id";
    DeriveFrom("id", "id", "id", "ID");
  }

  /** A run of several capitals stays one word: `IOStats` gives `IOSTATS`. */
  lemma DeriveIOStats()
    ensures Derive("IOStats") == "IOSTATS"
  {
    UnderscoreIOStats();
    DeriveFrom("IOStats", "_IOStats", "IOStats", "IOSTATS");
  }

  lemma UnderscoreIOStats()
    ensures UnderscoreFrom("IOStats", 0) == "_IOStats"
  {
    var s := "IOStats";
    assert UnderscoreFrom(s, 5) == "ts";
    assert UnderscoreFrom(s, 3) == "tats";
    assert UpperRunEnd(s, 0) == 3;
  }

  /** Two root fields whose identifiers collide. */
  lemma DeriveCollision()
    ensures Derive("userID") == "USER_ID"
    ensures Derive("user_id") == "USER_ID"
  {
    DeriveUserID();
    DeriveUser_id();
  }

  lemma DeriveUserID()
    ensures Derive("userID") == "USER_ID"
  {
    UnderscoreUserID();
    DeriveFrom("userID", "user_ID", "user_ID", "USER_ID");
  }

  lemma DeriveUser_id()
    ensures Derive("user_id") == "USER_ID"
  {
    UnderscoreUser_id();
    DeriveFrom("user_id", "user_id", "user_id", "USER_ID");
  }

  lemma UnderscoreUserID()
    ensures UnderscoreFrom("userID", 0) == "user_ID"
  {
    var s := "userID";
    assert UpperRunEnd(s, 4) == 6;
    assert UnderscoreFrom(s, 4) == "_ID";
    assert UnderscoreFrom(s, 2) == "er_ID";
  }

  lemma UnderscoreUser_id()
    ensures UnderscoreFrom("user_id", 0) == "user_id"
  {
    var t := "user_id";
    assert UnderscoreFrom(t, 5) == "id";
    assert UnderscoreFrom(t, 2) == "er_id";
  }

  /** A leading `_` of the name is what the second replacement drops. */
  lemma DeriveLeadingUnderscore()
    ensures Derive("_foo") == "FOO"
  {
    var s := "_foo";
    assert UnderscoreFrom(s, 2) == "oo";
    assert UnderscoreFrom(s, 0) == "_foo";
    assert "_foo"[1..] == "foo";
    DeriveFrom("_foo", "_foo", "foo", "FOO");
  }
}
