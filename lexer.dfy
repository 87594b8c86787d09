/** The scanner: an ordered rule table tried first-match at a cursor that
    moves left to right, emitting `(kind, lexeme)` tokens, skipping
    whitespace and appending the `Eof` sentinel. */
module Lexer {
  import opened Syntax
  import opened Chars

  /** The eight rows of the rule table, in priority order. */
  datatype Rule =
    | KeywordRule     // \b(int|float|string|char|bool)\b
    | IdentifierRule  // [a-zA-Z_][a-zA-Z_0-9]*
    | NumberRule      // \d+(\.\d*)?|\.\d+
    | OperatorRule    // [+\-*/%~!]
    | AssignRule      // =
    | LParenRule      // \(
    | RParenRule      // \)
    | SpaceRule       // \s+, matched and discarded

  const RuleTable: seq<Rule> :=
    [KeywordRule, IdentifierRule, NumberRule, OperatorRule, AssignRule, LParenRule, RParenRule, SpaceRule]

  /** Where a rule stands in the table. */
  function RuleIndex(r: Rule): (j: nat)
    ensures j < |RuleTable| && RuleTable[j] == r
  {
    match r
    case KeywordRule => 0
    case IdentifierRule => 1
    case NumberRule => 2
    case OperatorRule => 3
    case AssignRule => 4
    case LParenRule => 5
    case RParenRule => 6
    case SpaceRule => 7
  }

  /** Each rule appears in the table once. */
  lemma RuleIndexOfTable(i: nat)
    requires i < |RuleTable|
    ensures RuleIndex(RuleTable[i]) == i
  {
  }

  /** The token kind a rule emits; `None` for whitespace, which emits nothing. */
  function RuleKind(r: Rule): (k: Option<Kind>)
    ensures k.None? <==> r == SpaceRule
    ensures k != Some(Eof)
  {
    match r
    case KeywordRule => Some(DataType)
    case IdentifierRule => Some(Identifier)
    case NumberRule => Some(Number)
    case OperatorRule => Some(Operator)
    case AssignRule => Some(Assign)
    case LParenRule => Some(LParen)
    case RParenRule => Some(RParen)
    case SpaceRule => None
  }

  /** The alternatives of the keyword group, in the order they are tried. */
  const Keywords: seq<string> := ["int", "float", "string", "char", "bool"]

  predicate HasPrefixAt(s: string, p: nat, w: string)
  {
    p + |w| <= |s| && s[p..p + |w|] == w
  }

  /** Every keyword is spelt with letters only. */
  lemma KeywordsAreLetters()
    ensures forall j, k :: 0 <= j < |Keywords| && 0 <= k < |Keywords[j]| ==> IsLetter(Keywords[j][k])
  {
    forall j, k | 0 <= j < |Keywords| && 0 <= k < |Keywords[j]|
      ensures IsLetter(Keywords[j][k])
    {
      if j == 0 { assert Keywords[j] == "int"; }
      else if j == 1 { assert Keywords[j] == "float"; }
      else if j == 2 { assert Keywords[j] == "string"; }
      else if j == 3 { assert Keywords[j] == "char"; }
      else { assert Keywords[j] == "bool"; }
    }
  }

  /** Tries the keyword alternatives `i..` at `p`, each followed by `\b`;
      the first that matches wins. */
  function KeywordFrom(s: string, p: nat, i: nat): (m: Option<nat>)
    requires p <= |s| && i <= |Keywords|
    ensures m.Some? ==>
      p < m.value <= |s| && s[p..m.value] in Keywords && BoundaryAt(s, m.value) &&
      forall k :: p <= k < m.value ==> IsLetter(s[k])
    ensures m.None? ==>
      forall j :: i <= j < |Keywords| && HasPrefixAt(s, p, Keywords[j]) ==> !BoundaryAt(s, p + |Keywords[j]|)
    decreases |Keywords| - i
  {
    if i == |Keywords| then None
    else
      var w := Keywords[i];
      if HasPrefixAt(s, p, w) && BoundaryAt(s, p + |w|) then
        KeywordsAreLetters();
        assert forall k :: p <= k < p + |w| ==> s[k] == w[k - p];
        Some(p + |w|)
      else KeywordFrom(s, p, i + 1)
  }

  /** Rule 1: a type keyword with a word boundary on both sides. The boundary
      before `p` looks at the character before the cursor. */
  function KeywordMatch(s: string, p: nat): (m: Option<nat>)
    requires p < |s|
    ensures m.Some? ==>
      p < m.value <= |s| && s[p..m.value] in Keywords &&
      BoundaryAt(s, p) && BoundaryAt(s, m.value) &&
      forall k :: p <= k < m.value ==> IsLetter(s[k])
    ensures m.None? ==>
      forall j :: 0 <= j < |Keywords| && HasPrefixAt(s, p, Keywords[j]) ==>
        !(BoundaryAt(s, p) && BoundaryAt(s, p + |Keywords[j]|))
  {
    if BoundaryAt(s, p) then KeywordFrom(s, p, 0) else None
  }

  /** Rule 2: a letter or underscore followed by the longest run of word characters. */
  function IdentifierMatch(s: string, p: nat): (m: Option<nat>)
    requires p < |s|
    ensures m.Some? <==> IsWordStart(s[p])
    ensures m.Some? ==>
      p < m.value <= |s| &&
      (forall k :: p <= k < m.value ==> IsWordChar(s[k])) &&
      (m.value == |s| || !IsWordChar(s[m.value]))
  {
    if IsWordStart(s[p]) then Some(RunEnd(s, p + 1, WordClass)) else None
  }

  /** The text of a numeric literal: digits with at most one decimal point,
      not empty and not a lone point. */
  predicate IsNumberLexeme(t: string)
  {
    t != "" && t != "." &&
    (forall i :: 0 <= i < |t| ==> IsDigit(t[i]) || t[i] == '.') &&
    (forall i, j :: 0 <= i < j < |t| && t[i] == '.' ==> t[j] != '.')
  }

  /** Rule 3: `\d+(\.\d*)?` tried first, then `\.\d+`; both greedy. */
  function NumberMatch(s: string, p: nat): (m: Option<nat>)
    requires p < |s|
    ensures m.Some? <==> IsDigit(s[p]) || (s[p] == '.' && p + 1 < |s| && IsDigit(s[p + 1]))
    ensures m.Some? ==>
      p < m.value <= |s| && IsNumberLexeme(s[p..m.value]) &&
      (m.value < |s| ==> !IsDigit(s[m.value]) && (s[m.value] == '.' ==> '.' in s[p..m.value]))
  {
    if IsDigit(s[p]) then
      var d := RunEnd(s, p, DigitClass);
      if d < |s| && s[d] == '.' then
        var e := RunEnd(s, d + 1, DigitClass);
        assert forall k :: 0 <= k < e - p ==> s[p..e][k] == s[p + k];
        assert s[p..e][d - p] == '.';
        Some(e)
      else
        assert forall k :: 0 <= k < d - p ==> s[p..d][k] == s[p + k];
        Some(d)
    else if s[p] == '.' && p + 1 < |s| && IsDigit(s[p + 1]) then
      var e := RunEnd(s, p + 1, DigitClass);
      assert forall k :: 0 <= k < e - p ==> s[p..e][k] == s[p + k];
      assert s[p..e][0] == '.';
      Some(e)
    else None
  }

  /** Rules 4 to 7 match one given character. */
  function CharMatch(s: string, p: nat, accepts: char -> bool): (m: Option<nat>)
    requires p < |s|
    ensures m.Some? <==> accepts(s[p])
    ensures m.Some? ==> m.value == p + 1
  {
    if accepts(s[p]) then Some(p + 1) else None
  }

  /** Rule 8: the longest run of whitespace. */
  function SpaceMatch(s: string, p: nat): (m: Option<nat>)
    requires p < |s|
    ensures m.Some? <==> IsSpace(s[p])
    ensures m.Some? ==>
      p < m.value <= |s| &&
      (forall k :: p <= k < m.value ==> IsSpace(s[k])) &&
      (m.value == |s| || !IsSpace(s[m.value]))
  {
    if IsSpace(s[p]) then Some(RunEnd(s, p, SpaceClass)) else None
  }

  /** Where the pattern of rule `r` matches when anchored at `p`: every match
      is non-empty, and only the whitespace rule consumes whitespace. */
  function MatchRule(r: Rule, s: string, p: nat): (m: Option<nat>)
    requires p < |s|
    ensures m.Some? ==> p < m.value <= |s|
    ensures m.Some? ==> forall k :: p <= k < m.value ==> (IsSpace(s[k]) <==> r == SpaceRule)
  {
    match r
    case KeywordRule => KeywordMatch(s, p)
    case IdentifierRule => IdentifierMatch(s, p)
    case NumberRule => NumberMatch(s, p)
    case OperatorRule => CharMatch(s, p, IsOperatorChar)
    case AssignRule => CharMatch(s, p, c => c == '=')
    case LParenRule => CharMatch(s, p, c => c == '(')
    case RParenRule => CharMatch(s, p, c => c == ')')
    case SpaceRule => SpaceMatch(s, p)
  }

  /** The winning rule at a cursor and where its match ends. */
  datatype Match = Match(rule: Rule, end: nat)

  /** The first of the rules `RuleTable[i..]` that matches at `p`. */
  function FirstMatchFrom(s: string, p: nat, i: nat): (m: Option<Match>)
    requires p < |s| && i <= |RuleTable|
    ensures m.Some? ==> p < m.value.end <= |s| && MatchRule(m.value.rule, s, p) == Some(m.value.end)
    ensures m.None? <==> forall j :: i <= j < |RuleTable| ==> MatchRule(RuleTable[j], s, p).None?
    ensures m.Some? ==>
      i <= RuleIndex(m.value.rule) &&
      forall k :: i <= k < RuleIndex(m.value.rule) ==> MatchRule(RuleTable[k], s, p).None?
    decreases |RuleTable| - i
  {
    if i == |RuleTable| then None
    else match MatchRule(RuleTable[i], s, p)
      case Some(e) => RuleIndexOfTable(i); Some(Match(RuleTable[i], e))
      case None => FirstMatchFrom(s, p, i + 1)
  }

  /** First-match selection over the whole rule table. */
  function FirstMatch(s: string, p: nat): (m: Option<Match>)
    requires p < |s|
  {
    FirstMatchFrom(s, p, 0)
  }

  /** One match of the scan: the rule that won and the text it consumed. */
  datatype Piece = Piece(rule: Rule, lexeme: string)

  /** `done` in front of a successful result; an error passes through. */
  function Glue<T>(done: seq<T>, r: Result<seq<T>>): (r': Result<seq<T>>)
  {
    match r
    case Ok(xs) => Ok(done + xs)
    case Err(e) => Err(e)
  }

  /** Every match the scanner makes from cursor `p` on, whitespace included,
      or the position where no rule matches. */
  function Scan(s: string, p: nat): (r: Result<seq<Piece>>)
    requires p <= |s|
    ensures r.Err? ==> r.error.IllegalCharacter? && p <= r.error.position < |s|
    decreases |s| - p
  {
    if p == |s| then Ok([])
    else match FirstMatch(s, p)
      case None => Err(IllegalCharacter(p))
      case Some(m) => Glue([Piece(m.rule, s[p..m.end])], Scan(s, m.end))
  }

  /** The tokens a sequence of matches emits: whitespace matches emit none. */
  function Tokens(ps: seq<Piece>): (ts: seq<Token>)
    ensures |ts| <= |ps|
    ensures forall i :: 0 <= i < |ts| ==> ts[i].kind != Eof
  {
    if ps == [] then []
    else
      match RuleKind(ps[0].rule)
      case Some(k) => [Token(k, ps[0].lexeme)] + Tokens(ps[1..])
      case None => Tokens(ps[1..])
  }

  /** What scanning from `p` to the end contributes to the token list. */
  function LexFrom(s: string, p: nat): (r: Result<seq<Token>>)
    requires p <= |s|
  {
    match Scan(s, p)
    case Ok(ps) => Ok(Tokens(ps) + [EofToken])
    case Err(e) => Err(e)
  }

  /** The token list of a whole line, or the position of its illegal character. */
  function Lex(s: string): (r: Result<seq<Token>>)
  {
    LexFrom(s, 0)
  }

  /** One step of the scan: the first match's token, then the rest. */
  lemma LexFromStep(s: string, p: nat)
    requires p < |s| && FirstMatch(s, p).Some?
    ensures LexFrom(s, p) ==
      var m := FirstMatch(s, p).value;
      Glue(Tokens([Piece(m.rule, s[p..m.end])]), LexFrom(s, m.end))
  {
    var m := FirstMatch(s, p).value;
    var pc := Piece(m.rule, s[p..m.end]);
    var rest := Scan(s, m.end);
    assert Scan(s, p) == Glue([pc], rest);
    match rest
    case Ok(ps) =>
      TokensAppend([pc], ps);
      assert Tokens([pc]) + (Tokens(ps) + [EofToken]) == (Tokens([pc]) + Tokens(ps)) + [EofToken];
    case Err(e) =>
  }

  lemma {:induction false} TokensAppend(a: seq<Piece>, b: seq<Piece>)
    ensures Tokens(a + b) == Tokens(a) + Tokens(b)
  {
    if a == [] {
      assert a + b == b;
    } else {
      assert (a + b)[1..] == a[1..] + b;
      TokensAppend(a[1..], b);
    }
  }

  lemma GlueGlue<T>(done: seq<T>, more: seq<T>, r: Result<seq<T>>)
    ensures Glue(done, Glue(more, r)) == Glue(done + more, r)
  {
    if r.Ok? {
      assert done + (more + r.value) == (done + more) + r.value;
    }
  }

  /** One round of the scanner loop: the first match's token, if it has one,
      joins the tokens done and the cursor moves past the match. */
  lemma EmitStep(s: string, p: nat, done: seq<Token>)
    requires p < |s| && FirstMatch(s, p).Some?
    ensures var m := FirstMatch(s, p).value;
      var kind := RuleKind(m.rule);
      Glue(done, LexFrom(s, p)) ==
        Glue(done + (if kind.Some? then [Token(kind.value, s[p..m.end])] else []), LexFrom(s, m.end))
  {
    var m := FirstMatch(s, p).value;
    var kind := RuleKind(m.rule);
    LexFromStep(s, p);
    var emitted := if kind.Some? then [Token(kind.value, s[p..m.end])] else [];
    assert emitted == Tokens([Piece(m.rule, s[p..m.end])]);
    GlueGlue(done, emitted, LexFrom(s, m.end));
  }

  /** The inner loop of the scanner: the rules in table order, stopping at
      the first one that matches at `position`. */
  method MatchAt(s: string, position: nat) returns (found: Option<Match>)
    requires position < |s|
    ensures found == FirstMatch(s, position)
  {
    found := None;
    var i := 0;
    while i < |RuleTable|
      invariant i <= |RuleTable|
      invariant found.None?
      invariant FirstMatchFrom(s, position, i) == FirstMatch(s, position)
    {
      var m := MatchRule(RuleTable[i], s, position);
      if m.Some? {
        found := Some(Match(RuleTable[i], m.value));
        return;
      }
      i := i + 1;
    }
  }

  /** The scanner loop: at each cursor try the rules in order, take the first
      match, emit its token unless it is whitespace, move past it; fail at
      the first cursor no rule matches; end with the `Eof` sentinel. */
  method Tokenize(s: string) returns (r: Result<seq<Token>>)
    ensures r == Lex(s)
  {
    var tokens: seq<Token> := [];
    var position: nat := 0;
    assert Glue(tokens, LexFrom(s, 0)) == LexFrom(s, 0) by {
      if LexFrom(s, 0).Ok? { assert [] + LexFrom(s, 0).value == LexFrom(s, 0).value; }
    }
    while position < |s|
      invariant position <= |s|
      invariant Lex(s) == Glue(tokens, LexFrom(s, position))
      decreases |s| - position
    {
      var found := MatchAt(s, position);
      if found.None? {
        return Err(IllegalCharacter(position));
      }
      var next := found.value.end;
      EmitStep(s, position, tokens);
      var kind := RuleKind(found.value.rule);
      if kind.Some? {
        tokens := tokens + [Token(kind.value, s[position..next])];
      }
      position := next;
    }
    assert LexFrom(s, position) == Ok([EofToken]) by {
      assert Scan(s, position) == Ok([]);
      assert Tokens([]) + [EofToken] == [EofToken];
    }
    tokens := tokens + [EofToken];
    return Ok(tokens);
  }
}
