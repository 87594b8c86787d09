/** What the scanner guarantees: the sentinel, coverage of the input,
    first-match classification of words and numbers, and where it fails. */
module LexerProps {
  import opened Syntax
  import opened Chars
  import opened Lexer

  // ---------------------------------------------------------------------------
  // The sentinel

  /** A successful scan ends with exactly one `(Eof, "")` token. */
  lemma LexEndsWithEof(s: string)
    requires Lex(s).Ok?
    ensures var ts := Lex(s).value;
      |ts| >= 1 && ts[|ts| - 1] == EofToken &&
      forall i :: 0 <= i < |ts| - 1 ==> ts[i].kind != Eof
  {
    var ps := Scan(s, 0).value;
    var ts := Lex(s).value;
    assert ts == Tokens(ps) + [EofToken];
    assert forall i :: 0 <= i < |ts| - 1 ==> ts[i] == Tokens(ps)[i];
  }

  // ---------------------------------------------------------------------------
  // Coverage: the matches tile the input

  /** The matched texts, concatenated in order. */
  function Text(ps: seq<Piece>): (t: string)
  {
    if ps == [] then "" else ps[0].lexeme + Text(ps[1..])
  }

  predicate AllSpace(t: string)
  {
    forall i :: 0 <= i < |t| ==> IsSpace(t[i])
  }

  predicate NoSpace(t: string)
  {
    forall i :: 0 <= i < |t| ==> !IsSpace(t[i])
  }

  /** A match is never empty; whitespace matches are all whitespace and
      token matches contain none. */
  predicate GoodPiece(pc: Piece)
  {
    pc.lexeme != "" &&
    (pc.rule == SpaceRule ==> AllSpace(pc.lexeme)) &&
    (pc.rule != SpaceRule ==> NoSpace(pc.lexeme))
  }

  /** Concatenating every match, the skipped whitespace included, gives back
      the input from the cursor on. */
  lemma {:induction false} ScanCoversInput(s: string, p: nat)
    requires p <= |s| && Scan(s, p).Ok?
    ensures Text(Scan(s, p).value) == s[p..]
    ensures forall i :: 0 <= i < |Scan(s, p).value| ==> GoodPiece(Scan(s, p).value[i])
    decreases |s| - p
  {
    if p < |s| {
      var m := FirstMatch(s, p).value;
      var pc := Piece(m.rule, s[p..m.end]);
      ScanCoversInput(s, m.end);
      MatchIsGood(s, p);
      ScanStep(s, p);
      PieceThenPieces(pc, Scan(s, m.end).value);
      SliceSplit(s, p, m.end);
    }
  }

  lemma SliceSplit(s: string, p: nat, q: nat)
    requires p <= q <= |s|
    ensures s[p..] == s[p..q] + s[q..]
  {
  }

  lemma PieceThenPieces(pc: Piece, rest: seq<Piece>)
    ensures Text([pc] + rest) == pc.lexeme + Text(rest)
    ensures GoodPiece(pc) && (forall i :: 0 <= i < |rest| ==> GoodPiece(rest[i])) ==>
      forall i :: 0 <= i < |[pc] + rest| ==> GoodPiece(([pc] + rest)[i])
  {
    assert ([pc] + rest)[1..] == rest;
  }

  /** One step of the scan, unfolded. */
  lemma ScanStep(s: string, p: nat)
    requires p < |s| && FirstMatch(s, p).Some?
    ensures var m := FirstMatch(s, p).value;
      Scan(s, p) == Glue([Piece(m.rule, s[p..m.end])], Scan(s, m.end))
  {
  }

  /** The first match at a cursor is a good piece. */
  lemma MatchIsGood(s: string, p: nat)
    requires p < |s| && FirstMatch(s, p).Some?
    ensures var m := FirstMatch(s, p).value;
      GoodPiece(Piece(m.rule, s[p..m.end]))
  {
    var m := FirstMatch(s, p).value;
    var t := s[p..m.end];
    assert forall k :: p <= k < m.end ==> (IsSpace(s[k]) <==> m.rule == SpaceRule);
    assert forall i :: 0 <= i < |t| ==> t[i] == s[p + i];
  }

  /** The input with every whitespace character removed. */
  function RemoveSpaces(t: string): (r: string)
  {
    if t == "" then "" else (if IsSpace(t[0]) then "" else [t[0]]) + RemoveSpaces(t[1..])
  }

  lemma {:induction false} RemoveSpacesAppend(a: string, b: string)
    ensures RemoveSpaces(a + b) == RemoveSpaces(a) + RemoveSpaces(b)
  {
    if a != "" {
      assert (a + b)[1..] == a[1..] + b;
      RemoveSpacesAppend(a[1..], b);
    } else {
      assert a + b == b;
    }
  }

  lemma {:induction false} RemoveSpacesOfPiece(t: string)
    ensures AllSpace(t) ==> RemoveSpaces(t) == ""
    ensures NoSpace(t) ==> RemoveSpaces(t) == t
  {
    if t != "" {
      RemoveSpacesOfPiece(t[1..]);
      assert AllSpace(t) ==> AllSpace(t[1..]);
      assert NoSpace(t) ==> NoSpace(t[1..]);
      assert t == [t[0]] + t[1..];
    }
  }

  /** The lexemes of a token list, concatenated in order. */
  function Lexemes(ts: seq<Token>): (t: string)
  {
    if ts == [] then "" else ts[0].lexeme + Lexemes(ts[1..])
  }

  lemma {:induction false} LexemesOfTokens(ps: seq<Piece>)
    requires forall i :: 0 <= i < |ps| ==> GoodPiece(ps[i])
    ensures Lexemes(Tokens(ps)) == RemoveSpaces(Text(ps))
  {
    if ps != [] {
      LexemesOfTokens(ps[1..]);
      RemoveSpacesAppend(ps[0].lexeme, Text(ps[1..]));
      RemoveSpacesOfPiece(ps[0].lexeme);
      if ps[0].rule != SpaceRule {
        var t := Token(RuleKind(ps[0].rule).value, ps[0].lexeme);
        assert Tokens(ps) == [t] + Tokens(ps[1..]);
        assert ([t] + Tokens(ps[1..]))[1..] == Tokens(ps[1..]);
      }
    }
  }

  /** Every character of the line ends up in exactly one token, in order,
      except whitespace, which is dropped: the lexemes of the token list,
      concatenated, are the line with its whitespace removed. */
  lemma LexemesCoverInput(s: string)
    requires Lex(s).Ok?
    ensures Lexemes(Lex(s).value) == RemoveSpaces(s)
  {
    var ps := Scan(s, 0).value;
    ScanCoversInput(s, 0);
    LexemesOfTokens(ps);
    LexemesAppendEof(Tokens(ps));
    assert s[0..] == s;
  }

  lemma {:induction false} LexemesAppendEof(ts: seq<Token>)
    ensures Lexemes(ts + [EofToken]) == Lexemes(ts)
  {
    if ts == [] {
      assert Lexemes([EofToken]) == "" + Lexemes([]);
    } else {
      assert (ts + [EofToken])[1..] == ts[1..] + [EofToken];
      LexemesAppendEof(ts[1..]);
    }
  }

  // ---------------------------------------------------------------------------
  // First-match classification

  lemma RunEndUnique(s: string, i: nat, cls: CharClass, e: nat)
    requires i <= e <= |s|
    requires forall k :: i <= k < e ==> InClass(cls, s[k])
    requires e == |s| || !InClass(cls, s[e])
    ensures RunEnd(s, i, cls) == e
  {
  }

  /** At a letter or underscore the whole word run is taken: it is a
      DataType token exactly when it spells a type keyword and the character
      before the cursor is not a word character; otherwise it is one
      Identifier. So `int` after a space is a keyword, `intx` and `int_x` are
      identifiers, and the `int` of `5int` is an identifier. */
  lemma WordClassification(s: string, p: nat)
    requires p < |s| && IsWordStart(s[p])
    ensures var e := RunEnd(s, p, WordClass);
      FirstMatch(s, p) ==
        Some(Match(if !WordAt(s, p - 1) && s[p..e] in Keywords then KeywordRule else IdentifierRule, e))
  {
    WordFirstMatch(s, p);
    KeywordMatchOfWord(s, p);
  }

  /** At a word start the keyword rule wins if it matches, else the identifier rule. */
  lemma WordFirstMatch(s: string, p: nat)
    requires p < |s| && IsWordStart(s[p])
    ensures var km := KeywordMatch(s, p);
      FirstMatch(s, p) ==
        if km.Some? then Some(Match(KeywordRule, km.value)) else Some(Match(IdentifierRule, RunEnd(s, p, WordClass)))
  {
    var e := RunEnd(s, p, WordClass);
    assert FirstMatchFrom(s, p, 1) == Some(Match(IdentifierRule, e)) by {
      assert RuleTable[1] == IdentifierRule && IdentifierMatch(s, p) == Some(e);
    }
    assert RuleTable[0] == KeywordRule;
  }

  /** At a word start the keyword rule matches exactly when the whole word
      run is a keyword and no word character comes before it. */
  lemma KeywordMatchOfWord(s: string, p: nat)
    requires p < |s| && IsWordStart(s[p])
    ensures var e := RunEnd(s, p, WordClass);
      KeywordMatch(s, p) == if !WordAt(s, p - 1) && s[p..e] in Keywords then Some(e) else None
  {
    var e := RunEnd(s, p, WordClass);
    if !WordAt(s, p - 1) && s[p..e] in Keywords {
      KeywordWordMatches(s, p);
    } else if KeywordMatch(s, p).Some? {
      RunEndUnique(s, p, WordClass, KeywordMatch(s, p).value);
      assert false;
    }
  }

  lemma KeywordWordMatches(s: string, p: nat)
    requires p < |s| && IsWordStart(s[p])
    requires !WordAt(s, p - 1) && s[p..RunEnd(s, p, WordClass)] in Keywords
    ensures KeywordMatch(s, p) == Some(RunEnd(s, p, WordClass))
  {
    var e := RunEnd(s, p, WordClass);
    var j :| 0 <= j < |Keywords| && Keywords[j] == s[p..e];
    assert HasPrefixAt(s, p, Keywords[j]);
    assert KeywordMatch(s, p).Some?;
    RunEndUnique(s, p, WordClass, KeywordMatch(s, p).value);
  }

  /** At a digit, or at a point followed by a digit, the Number rule wins. */
  lemma NumberClassification(s: string, p: nat)
    requires p < |s| && (IsDigit(s[p]) || (s[p] == '.' && p + 1 < |s| && IsDigit(s[p + 1])))
    ensures FirstMatch(s, p) == Some(Match(NumberRule, NumberMatch(s, p).value))
  {
    assert KeywordMatch(s, p).None?;
    assert FirstMatch(s, p) == FirstMatchFrom(s, p, 0);
  }

  /** A character starts a match exactly when it is a letter, underscore,
      digit, operator, `=`, a parenthesis, whitespace, or a point followed by
      a digit. */
  predicate CanStartMatch(s: string, p: nat)
    requires p < |s|
  {
    var c := s[p];
    IsWordStart(c) || IsDigit(c) || (c == '.' && p + 1 < |s| && IsDigit(s[p + 1])) ||
    IsOperatorChar(c) || c == '=' || c == '(' || c == ')' || IsSpace(c)
  }

  lemma NoRuleMatchesIff(s: string, p: nat)
    requires p < |s|
    ensures FirstMatch(s, p).None? <==> !CanStartMatch(s, p)
  {
    assert FirstMatch(s, p) == FirstMatchFrom(s, p, 0);
    assert RuleTable[1] == IdentifierRule && RuleTable[2] == NumberRule && RuleTable[3] == OperatorRule;
    assert RuleTable[4] == AssignRule && RuleTable[5] == LParenRule && RuleTable[6] == RParenRule;
    assert RuleTable[7] == SpaceRule;
    if KeywordMatch(s, p).Some? {
      assert IsLetter(s[p]);
    }
  }

  // ---------------------------------------------------------------------------
  // Where the scan fails

  /** `ps` are the matches the cursor makes going from `p` to `q`: at each
      cursor the first matching rule, then the cursor moves past the match. */
  predicate Walk(s: string, p: nat, ps: seq<Piece>, q: nat)
    decreases |ps|
  {
    if ps == [] then p == q
    else
      p < |s| && FirstMatch(s, p).Some? &&
      var m := FirstMatch(s, p).value;
      ps[0] == Piece(m.rule, s[p..m.end]) && Walk(s, m.end, ps[1..], q)
  }

  /** The scan is determined by the walk: after walking to `q` it goes on as
      the scan from `q`. */
  lemma {:induction false} WalkThenScan(s: string, p: nat, ps: seq<Piece>, q: nat)
    requires p <= |s| && Walk(s, p, ps, q)
    ensures q <= |s| && Scan(s, p) == Glue(ps, Scan(s, q))
    decreases |ps|
  {
    if ps == [] {
      if Scan(s, p).Ok? {
        assert [] + Scan(s, p).value == Scan(s, p).value;
      }
    } else {
      var m := FirstMatch(s, p).value;
      assert ps[0] == Piece(m.rule, s[p..m.end]);
      WalkThenScan(s, m.end, ps[1..], q);
      ScanStep(s, p);
      GlueGlue([ps[0]], ps[1..], Scan(s, q));
      assert [ps[0]] + ps[1..] == ps;
    }
  }

  lemma {:induction false} ScanIsAWalk(s: string, p: nat)
    requires p <= |s|
    ensures Scan(s, p).Ok? ==> Walk(s, p, Scan(s, p).value, |s|)
    ensures Scan(s, p).Err? ==>
      var q := Scan(s, p).error.position;
      FirstMatch(s, q).None? && exists ps :: Walk(s, p, ps, q)
    decreases |s| - p
  {
    if p < |s| && FirstMatch(s, p).Some? {
      var m := FirstMatch(s, p).value;
      var pc := Piece(m.rule, s[p..m.end]);
      ScanStep(s, p);
      ScanIsAWalk(s, m.end);
      match Scan(s, m.end)
      case Ok(rest) =>
        assert ([pc] + rest)[1..] == rest;
      case Err(e) =>
        var ps :| Walk(s, m.end, ps, e.position);
        assert ([pc] + ps)[1..] == ps;
        assert Walk(s, p, [pc] + ps, e.position);
    } else if p < |s| {
      assert Walk(s, p, [], p);
    }
  }

  /** The scan succeeds exactly along a walk that reaches the end of the
      line, and its tokens are those the walk's matches emit. */
  lemma LexSucceedsIffWalkToEnd(s: string, ps: seq<Piece>)
    ensures Walk(s, 0, ps, |s|) <==> Scan(s, 0) == Ok(ps)
    ensures Walk(s, 0, ps, |s|) ==> Lex(s) == Ok(Tokens(ps) + [EofToken])
  {
    if Walk(s, 0, ps, |s|) {
      WalkThenScan(s, 0, ps, |s|);
      assert ps + [] == ps;
    }
    ScanIsAWalk(s, 0);
  }

  /** The scan fails with "Illegal character at position q" exactly when the
      cursor reaches `q` and no rule matches there; nothing is skipped. */
  lemma LexFailsIffStuck(s: string, q: nat)
    ensures Lex(s) == Err(IllegalCharacter(q)) <==>
      q < |s| && FirstMatch(s, q).None? && exists ps :: Walk(s, 0, ps, q)
  {
    ScanIsAWalk(s, 0);
    if q < |s| && FirstMatch(s, q).None? && exists ps :: Walk(s, 0, ps, q) {
      var ps :| Walk(s, 0, ps, q);
      WalkThenScan(s, 0, ps, q);
    }
  }

  /** The scanner's only error is an illegal character. */
  lemma LexErrorIsIllegalCharacter(s: string)
    requires Lex(s).Err?
    ensures Lex(s).error.IllegalCharacter? && Lex(s).error.position < |s|
    ensures !CanStartMatch(s, Lex(s).error.position)
  {
    ScanIsAWalk(s, 0);
    NoRuleMatchesIff(s, Lex(s).error.position);
  }

  // ---------------------------------------------------------------------------
  // Type annotations

  /** Every DATATYPE token carries one of the type keywords. */
  predicate TypesAreKeywords(ts: seq<Token>)
  {
    forall i :: 0 <= i < |ts| && ts[i].kind == DataType ==> ts[i].lexeme in Keywords
  }

  /** Every match of the keyword rule consumed one of the type keywords. */
  predicate KeywordPiecesAreKeywords(ps: seq<Piece>)
  {
    forall i :: 0 <= i < |ps| && ps[i].rule == KeywordRule ==> ps[i].lexeme in Keywords
  }

  /** Only the keyword rule emits DATATYPE, so the tokens inherit the property. */
  lemma {:induction false} TokensOfKeywordPieces(ps: seq<Piece>)
    requires KeywordPiecesAreKeywords(ps)
    ensures TypesAreKeywords(Tokens(ps))
  {
    if ps != [] {
      var tail := ps[1..];
      assert KeywordPiecesAreKeywords(tail) by {
        assert forall i :: 0 <= i < |tail| ==> tail[i] == ps[i + 1];
      }
      TokensOfKeywordPieces(tail);
      match RuleKind(ps[0].rule)
      case None =>
      case Some(k) =>
        assert Tokens(ps) == [Token(k, ps[0].lexeme)] + Tokens(tail);
        assert k == DataType ==> ps[0].rule == KeywordRule;
    }
  }

  /** Every keyword-rule match of the scan is a whole type keyword. */
  lemma {:induction false} ScanKeywordsAreKeywords(s: string, p: nat)
    requires p <= |s| && Scan(s, p).Ok?
    ensures KeywordPiecesAreKeywords(Scan(s, p).value)
    decreases |s| - p
  {
    if p < |s| {
      var m := FirstMatch(s, p).value;
      ScanStep(s, p);
      ScanKeywordsAreKeywords(s, m.end);
      var pc := Piece(m.rule, s[p..m.end]);
      var rest := Scan(s, m.end).value;
      assert Scan(s, p).value == [pc] + rest;
      assert m.rule == KeywordRule ==> KeywordMatch(s, p) == Some(m.end);
    }
  }

  /** A scanned DATATYPE token is always one of `int, float, string, char, bool`. */
  lemma LexTypesAreKeywords(s: string)
    requires Lex(s).Ok?
    ensures TypesAreKeywords(Lex(s).value)
  {
    var ps := Scan(s, 0).value;
    ScanKeywordsAreKeywords(s, 0);
    TokensOfKeywordPieces(ps);
    var ts := Lex(s).value;
    assert ts == Tokens(ps) + [EofToken];
    assert forall i :: 0 <= i < |ts| - 1 ==> ts[i] == Tokens(ps)[i];
  }

  /** A match of a one-character rule consumed exactly that character. */
  predicate PieceSpelled(pc: Piece)
  {
    (pc.rule == AssignRule ==> pc.lexeme == "=") &&
    (pc.rule == LParenRule ==> pc.lexeme == "(") &&
    (pc.rule == RParenRule ==> pc.lexeme == ")")
  }

  predicate PiecesSpelled(ps: seq<Piece>)
  {
    forall i :: 0 <= i < |ps| ==> PieceSpelled(ps[i])
  }

  /** Only the one-character rules emit `=`, `(` and `)` tokens, so the
      tokens inherit the property. */
  lemma {:induction false} TokensOfSpelledPieces(ps: seq<Piece>)
    requires PiecesSpelled(ps)
    ensures AllSpelled(Tokens(ps))
  {
    if ps != [] {
      var tail := ps[1..];
      assert PiecesSpelled(tail) by {
        assert forall i :: 0 <= i < |tail| ==> tail[i] == ps[i + 1];
      }
      TokensOfSpelledPieces(tail);
      match RuleKind(ps[0].rule)
      case None =>
      case Some(k) =>
        var t := Token(k, ps[0].lexeme);
        assert Tokens(ps) == [t] + Tokens(tail);
        assert Spelled(t) by {
          assert PieceSpelled(ps[0]);
        }
    }
  }

  /** Every match of a one-character rule in the scan is that character. */
  lemma {:induction false} ScanPiecesSpelled(s: string, p: nat)
    requires p <= |s| && Scan(s, p).Ok?
    ensures PiecesSpelled(Scan(s, p).value)
    decreases |s| - p
  {
    if p < |s| {
      var m := FirstMatch(s, p).value;
      ScanStep(s, p);
      ScanPiecesSpelled(s, m.end);
      var pc := Piece(m.rule, s[p..m.end]);
      var rest := Scan(s, m.end).value;
      assert Scan(s, p).value == [pc] + rest;
      MatchIsSpelled(s, p);
    }
  }

  /** The first match at a cursor is spelled. */
  lemma MatchIsSpelled(s: string, p: nat)
    requires p < |s| && FirstMatch(s, p).Some?
    ensures var m := FirstMatch(s, p).value;
      PieceSpelled(Piece(m.rule, s[p..m.end]))
  {
    var m := FirstMatch(s, p).value;
    if m.rule in {AssignRule, LParenRule, RParenRule} {
      assert MatchRule(m.rule, s, p) == Some(m.end);
      assert m.end == p + 1;
      assert s[p..m.end] == [s[p]];
    }
  }

  /** The scanner's `=`, `(` and `)` tokens carry their character. */
  lemma LexIsSpelled(s: string)
    requires Lex(s).Ok?
    ensures AllSpelled(Lex(s).value)
  {
    var ps := Scan(s, 0).value;
    ScanPiecesSpelled(s, 0);
    TokensOfSpelledPieces(ps);
    var ts := Lex(s).value;
    assert ts == Tokens(ps) + [EofToken];
    assert forall i :: 0 <= i < |ts| - 1 ==> ts[i] == Tokens(ps)[i];
  }
}
