/** Worked inputs: what the scanner and the parser give for a few lines,
    including the corner cases of the word-boundary rule and each kind of
    syntax error. */
module Examples {
  import opened Syntax
  import opened Chars
  import opened Lexer
  import opened Grammar
  import opened GrammarProps
  import opened FrontEnd

  /** One scanner step that emits a token. */
  lemma Emit(s: string, p: nat, r: Rule, e: nat, t: Token, rest: seq<Token>)
    requires p < |s| && FirstMatch(s, p) == Some(Match(r, e)) && LexFrom(s, e) == Ok(rest)
    requires RuleKind(r) == Some(t.kind) && s[p..e] == t.lexeme
    ensures LexFrom(s, p) == Ok([t] + rest)
  {
    LexFromStep(s, p);
    assert Tokens([Piece(r, s[p..e])]) == [t];
  }

  /** One scanner step over whitespace. */
  lemma Skip(s: string, p: nat, e: nat, rest: seq<Token>)
    requires p < |s| && FirstMatch(s, p) == Some(Match(SpaceRule, e)) && LexFrom(s, e) == Ok(rest)
    ensures LexFrom(s, p) == Ok(rest)
  {
    LexFromStep(s, p);
    assert Tokens([Piece(SpaceRule, s[p..e])]) == [];
  }

  /** A scanner step before a failure passes the failure on. */
  lemma Pass(s: string, p: nat, r: Rule, e: nat)
    requires p < |s| && FirstMatch(s, p) == Some(Match(r, e)) && LexFrom(s, e).Err?
    ensures LexFrom(s, p) == LexFrom(s, e)
  {
    LexFromStep(s, p);
  }

  lemma Finish(s: string)
    ensures LexFrom(s, |s|) == Ok([EofToken])
  {
    assert Tokens([]) + [EofToken] == [EofToken];
  }

  /** The keyword's leading `\b` looks at the character before the cursor:
      after a digit, `int` is an identifier. */
  lemma DigitThenKeyword()
    ensures Lex("5int") == Ok([Token(Number, "5"), Token(Identifier, "int"), EofToken])
  {
    var s := "5int";
    DigitThenKeywordMatches();
    Finish(s);
    Emit(s, 1, IdentifierRule, 4, Token(Identifier, "int"), [EofToken]);
    assert [Token(Identifier, "int")] + [EofToken] == [Token(Identifier, "int"), EofToken];
    Emit(s, 0, NumberRule, 1, Token(Number, "5"), [Token(Identifier, "int"), EofToken]);
    assert [Token(Number, "5")] + [Token(Identifier, "int"), EofToken] ==
      [Token(Number, "5"), Token(Identifier, "int"), EofToken];
  }

  lemma DigitThenKeywordMatches()
    ensures FirstMatch("5int", 0) == Some(Match(NumberRule, 1))
    ensures FirstMatch("5int", 1) == Some(Match(IdentifierRule, 4))
  {
    var s := "5int";
    assert FirstMatch(s, 0) == Some(Match(NumberRule, 1)) by {
      assert RunEnd(s, 0, DigitClass) == 1;
    }
    assert FirstMatch(s, 1) == Some(Match(IdentifierRule, 4)) by {
      assert !BoundaryAt(s, 1);
      assert RunEnd(s, 2, WordClass) == 4;
    }
  }

  /** The trailing `\b` rejects a keyword that runs on into a longer word. */
  lemma KeywordPrefix()
    ensures Lex("intx") == Ok([Token(Identifier, "intx"), EofToken])
  {
    var s := "intx";
    KeywordPrefixMatch();
    Finish(s);
    Emit(s, 0, IdentifierRule, 4, Token(Identifier, "intx"), [EofToken]);
    assert [Token(Identifier, "intx")] + [EofToken] == [Token(Identifier, "intx"), EofToken];
  }

  lemma KeywordPrefixMatch()
    ensures FirstMatch("intx", 0) == Some(Match(IdentifierRule, 4))
  {
    var s := "intx";
    assert !BoundaryAt(s, 3);
    assert KeywordMatch(s, 0).None?;
    assert RunEnd(s, 1, WordClass) == 4;
  }

  /** An underscore is a word character, so `int_x` is one identifier. */
  lemma KeywordUnderscore()
    ensures Lex("int_x") == Ok([Token(Identifier, "int_x"), EofToken])
  {
    var s := "int_x";
    KeywordUnderscoreMatch();
    Finish(s);
    Emit(s, 0, IdentifierRule, 5, Token(Identifier, "int_x"), [EofToken]);
    assert [Token(Identifier, "int_x")] + [EofToken] == [Token(Identifier, "int_x"), EofToken];
  }

  lemma KeywordUnderscoreMatch()
    ensures FirstMatch("int_x", 0) == Some(Match(IdentifierRule, 5))
  {
    var s := "int_x";
    assert !BoundaryAt(s, 3);
    assert KeywordMatch(s, 0).None?;
    assert RunEnd(s, 1, WordClass) == 5;
  }

  /** A keyword on its own is a type token, and whitespace emits nothing. */
  lemma KeywordThenName()
    ensures Lex("int x") == Ok([Token(DataType, "int"), Token(Identifier, "x"), EofToken])
  {
    var s := "int x";
    KeywordThenNameMatches();
    Finish(s);
    Emit(s, 4, IdentifierRule, 5, Token(Identifier, "x"), [EofToken]);
    assert [Token(Identifier, "x")] + [EofToken] == [Token(Identifier, "x"), EofToken];
    Skip(s, 3, 4, [Token(Identifier, "x"), EofToken]);
    Emit(s, 0, KeywordRule, 3, Token(DataType, "int"), [Token(Identifier, "x"), EofToken]);
    assert [Token(DataType, "int")] + [Token(Identifier, "x"), EofToken] ==
      [Token(DataType, "int"), Token(Identifier, "x"), EofToken];
  }

  lemma KeywordThenNameMatches()
    ensures FirstMatch("int x", 0) == Some(Match(KeywordRule, 3))
    ensures FirstMatch("int x", 3) == Some(Match(SpaceRule, 4))
    ensures FirstMatch("int x", 4) == Some(Match(IdentifierRule, 5))
  {
    KeywordAtStart();
    SpaceAfterKeyword();
    NameAfterSpace();
  }

  lemma KeywordAtStart()
    ensures FirstMatch("int x", 0) == Some(Match(KeywordRule, 3))
  {
    var s := "int x";
    assert HasPrefixAt(s, 0, Keywords[0]) && BoundaryAt(s, 3);
  }

  lemma SpaceAfterKeyword()
    ensures FirstMatch("int x", 3) == Some(Match(SpaceRule, 4))
  {
    var s := "int x";
    assert !BoundaryAt(s, 3 + 3);
    assert RunEnd(s, 3, SpaceClass) == 4;
  }

  lemma NameAfterSpace()
    ensures FirstMatch("int x", 4) == Some(Match(IdentifierRule, 5))
  {
    assert RunEnd("int x", 5, WordClass) == 5;
  }

  /** A character no rule matches stops the scan with its position. */
  lemma IllegalDollar()
    ensures Lex("x=$") == Err(IllegalCharacter(2))
    ensures Analyze("x=$") == Err(IllegalCharacter(2))
  {
    var s := "x=$";
    DollarMatches();
    assert LexFrom(s, 2) == Err(IllegalCharacter(2));
    Pass(s, 1, AssignRule, 2);
    Pass(s, 0, IdentifierRule, 1);
  }

  lemma DollarMatches()
    ensures FirstMatch("x=$", 0) == Some(Match(IdentifierRule, 1))
    ensures FirstMatch("x=$", 1) == Some(Match(AssignRule, 2))
    ensures FirstMatch("x=$", 2).None?
  {
    NameBeforeDollar();
    EqualsBeforeDollar();
    NoMatchAtDollar();
  }

  lemma NameBeforeDollar()
    ensures FirstMatch("x=$", 0) == Some(Match(IdentifierRule, 1))
  {
    assert RunEnd("x=$", 1, WordClass) == 1;
  }

  lemma EqualsBeforeDollar()
    ensures FirstMatch("x=$", 1) == Some(Match(AssignRule, 2))
  {
    var s := "x=$";
    assert BoundaryAt(s, 1) && !HasPrefixAt(s, 1, Keywords[0]);
    assert MatchRule(KeywordRule, s, 1).None?;
    assert MatchRule(IdentifierRule, s, 1).None?;
    assert MatchRule(NumberRule, s, 1).None?;
    assert MatchRule(OperatorRule, s, 1).None?;
  }

  lemma NoMatchAtDollar()
    ensures FirstMatch("x=$", 2).None?
  {
    var s := "x=$";
    assert !BoundaryAt(s, 2) && !IsSpace(s[2]);
  }

  const X: Token := Token(Identifier, "x")
  const Equals: Token := Token(Assign, "=")

  function Num(v: string): (t: Token)
  {
    Token(Number, v)
  }

  function Op(op: string): (t: Token)
  {
    Token(Operator, op)
  }

  /** The tokens of an untyped assignment to `x`. */
  lemma AssignToX(a: Assignment, body: seq<Token>)
    requires a.dataType.None? && a.left == Var("x") && PrintExpr(a.right) == body
    ensures PrintAssignment(a) + [EofToken] == [X, Equals] + body + [EofToken]
  {
  }

  /** `x = 1 - 2 - 3`: operators of one level group to the left. */
  lemma LeftAssociative()
    ensures Line([X, Equals, Num("1"), Op("-"), Num("2"), Op("-"), Num("3"), EofToken]).result ==
      Ok(Assignment(None, Var("x"), Binary("-", Binary("-", Lit("1"), Lit("2")), Lit("3"))))
  {
    var a := Assignment(None, Var("x"), Binary("-", Binary("-", Lit("1"), Lit("2")), Lit("3")));
    LeftAssociativeTokens(a);
    LineRoundTrip(a);
  }

  lemma LeftAssociativeTokens(a: Assignment)
    requires a == Assignment(None, Var("x"), Binary("-", Binary("-", Lit("1"), Lit("2")), Lit("3")))
    ensures PrintAssignment(a) + [EofToken] == [X, Equals, Num("1"), Op("-"), Num("2"), Op("-"), Num("3"), EofToken]
  {
    var body := [Num("1"), Op("-"), Num("2"), Op("-"), Num("3")];
    PrintLeftAssociative();
    AssignToX(a, body);
  }

  lemma PrintLeftAssociative()
    ensures PrintExpr(Binary("-", Binary("-", Lit("1"), Lit("2")), Lit("3"))) ==
      [Num("1"), Op("-"), Num("2"), Op("-"), Num("3")]
  {
    var inner := Binary("-", Lit("1"), Lit("2"));
    assert PrintExpr(inner) == [Num("1"), Op("-"), Num("2")] by {
      assert PrintExpr(Lit("1")) == [Num("1")] && PrintTerm(Lit("2")) == [Num("2")];
    }
    assert PrintTerm(Lit("3")) == [Num("3")];
  }

  /** `x = 1 + 2 * 3`: `*` binds tighter than `+`. */
  lemma Precedence()
    ensures Line([X, Equals, Num("1"), Op("+"), Num("2"), Op("*"), Num("3"), EofToken]).result ==
      Ok(Assignment(None, Var("x"), Binary("+", Lit("1"), Binary("*", Lit("2"), Lit("3")))))
  {
    var a := Assignment(None, Var("x"), Binary("+", Lit("1"), Binary("*", Lit("2"), Lit("3"))));
    PrecedenceTokens(a);
    LineRoundTrip(a);
  }

  lemma PrecedenceTokens(a: Assignment)
    requires a == Assignment(None, Var("x"), Binary("+", Lit("1"), Binary("*", Lit("2"), Lit("3"))))
    ensures PrintAssignment(a) + [EofToken] == [X, Equals, Num("1"), Op("+"), Num("2"), Op("*"), Num("3"), EofToken]
  {
    var body := [Num("1"), Op("+"), Num("2"), Op("*"), Num("3")];
    PrintPrecedence();
    AssignToX(a, body);
  }

  lemma PrintPrecedence()
    ensures PrintExpr(Binary("+", Lit("1"), Binary("*", Lit("2"), Lit("3")))) ==
      [Num("1"), Op("+"), Num("2"), Op("*"), Num("3")]
  {
    var inner := Binary("*", Lit("2"), Lit("3"));
    assert PrintTerm(inner) == [Num("2"), Op("*"), Num("3")] by {
      assert PrintTerm(Lit("2")) == [Num("2")] && PrintFactor(Lit("3")) == [Num("3")];
    }
    assert PrintExpr(Lit("1")) == [Num("1")];
  }

  /** `int x = -(1 % 2) / ~y`: a type, unary operators and parentheses. */
  lemma TypedWithParentheses()
    ensures Line([Token(DataType, "int"), X, Equals, Op("-"), Token(LParen, "("), Num("1"), Op("%"), Num("2"),
      Token(RParen, ")"), Op("/"), Op("~"), Token(Identifier, "y"), EofToken]).result ==
      Ok(Assignment(Some("int"), Var("x"),
        Binary("/", Unary("-", Binary("%", Lit("1"), Lit("2"))), Unary("~", Var("y")))))
  {
    var a := Assignment(Some("int"), Var("x"),
      Binary("/", Unary("-", Binary("%", Lit("1"), Lit("2"))), Unary("~", Var("y"))));
    TypedWithParenthesesTokens(a);
    LineRoundTrip(a);
  }

  lemma TypedWithParenthesesTokens(a: Assignment)
    requires a == Assignment(Some("int"), Var("x"),
      Binary("/", Unary("-", Binary("%", Lit("1"), Lit("2"))), Unary("~", Var("y"))))
    ensures PrintAssignment(a) + [EofToken] == [Token(DataType, "int"), X, Equals, Op("-"), Token(LParen, "("),
      Num("1"), Op("%"), Num("2"), Token(RParen, ")"), Op("/"), Op("~"), Token(Identifier, "y"), EofToken]
  {
    var body := [Op("-"), Token(LParen, "("), Num("1"), Op("%"), Num("2"), Token(RParen, ")"),
      Op("/"), Op("~"), Token(Identifier, "y")];
    PrintTypedWithParentheses();
    assert PrintAssignment(a) + [EofToken] == [Token(DataType, "int"), X, Equals] + body + [EofToken];
  }

  lemma PrintTypedWithParentheses()
    ensures PrintExpr(Binary("/", Unary("-", Binary("%", Lit("1"), Lit("2"))), Unary("~", Var("y")))) ==
      [Op("-"), Token(LParen, "("), Num("1"), Op("%"), Num("2"), Token(RParen, ")"), Op("/"), Op("~"),
       Token(Identifier, "y")]
  {
    var sum := Binary("%", Lit("1"), Lit("2"));
    assert PrintBinary(sum) == [Num("1"), Op("%"), Num("2")] by {
      assert PrintExpr(Lit("1")) == [Num("1")] && PrintTerm(Lit("2")) == [Num("2")];
    }
    assert PrintTerm(Unary("-", sum)) ==
      [Op("-"), Token(LParen, "("), Num("1"), Op("%"), Num("2"), Token(RParen, ")")] by {
      assert PrintFactor(sum) == [Token(LParen, "("), Num("1"), Op("%"), Num("2"), Token(RParen, ")")];
    }
    assert PrintFactor(Unary("~", Var("y"))) == [Op("~"), Token(Identifier, "y")];
  }

  /** `x = --5`: unary operators nest to the right. */
  lemma UnaryChain()
    ensures Line([X, Equals, Op("-"), Op("-"), Num("5"), EofToken]).result ==
      Ok(Assignment(None, Var("x"), Unary("-", Unary("-", Lit("5")))))
  {
    var a := Assignment(None, Var("x"), Unary("-", Unary("-", Lit("5"))));
    UnaryChainTokens(a);
    LineRoundTrip(a);
  }

  lemma UnaryChainTokens(a: Assignment)
    requires a == Assignment(None, Var("x"), Unary("-", Unary("-", Lit("5"))))
    ensures PrintAssignment(a) + [EofToken] == [X, Equals, Op("-"), Op("-"), Num("5"), EofToken]
  {
    assert PrintTerm(a.right) == [Op("-"), Op("-"), Num("5")];
    AssignToX(a, [Op("-"), Op("-"), Num("5")]);
  }

  /** `x = (1 + 2) * 3`: parentheses override precedence and leave no node. */
  lemma Grouping()
    ensures Line([X, Equals, Token(LParen, "("), Num("1"), Op("+"), Num("2"), Token(RParen, ")"), Op("*"),
      Num("3"), EofToken]).result ==
      Ok(Assignment(None, Var("x"), Binary("*", Binary("+", Lit("1"), Lit("2")), Lit("3"))))
  {
    var a := Assignment(None, Var("x"), Binary("*", Binary("+", Lit("1"), Lit("2")), Lit("3")));
    GroupingTokens(a);
    LineRoundTrip(a);
  }

  lemma GroupingTokens(a: Assignment)
    requires a == Assignment(None, Var("x"), Binary("*", Binary("+", Lit("1"), Lit("2")), Lit("3")))
    ensures PrintAssignment(a) + [EofToken] == [X, Equals, Token(LParen, "("), Num("1"), Op("+"), Num("2"),
      Token(RParen, ")"), Op("*"), Num("3"), EofToken]
  {
    var body := [Token(LParen, "("), Num("1"), Op("+"), Num("2"), Token(RParen, ")"), Op("*"), Num("3")];
    PrintGrouping();
    AssignToX(a, body);
  }

  lemma PrintGrouping()
    ensures PrintExpr(Binary("*", Binary("+", Lit("1"), Lit("2")), Lit("3"))) ==
      [Token(LParen, "("), Num("1"), Op("+"), Num("2"), Token(RParen, ")"), Op("*"), Num("3")]
  {
    var sum := Binary("+", Lit("1"), Lit("2"));
    assert PrintBinary(sum) == [Num("1"), Op("+"), Num("2")] by {
      assert PrintExpr(Lit("1")) == [Num("1")] && PrintTerm(Lit("2")) == [Num("2")];
    }
    assert PrintTerm(sum) == [Token(LParen, "("), Num("1"), Op("+"), Num("2"), Token(RParen, ")")];
    assert PrintFactor(Lit("3")) == [Num("3")];
  }

  /** An assignment to `x` is what its expression makes of it. */
  lemma AssignXStatement(ts: seq<Token>)
    requires |ts| >= 2 && ts[0] == X && ts[1] == Equals
    ensures Statement(ts).rest == Expression(ts[2..]).rest
    ensures Statement(ts).result ==
      match Expression(ts[2..]).result
      case Ok(right) => Ok(Assignment(None, Var("x"), right))
      case Err(e) => Err(e)
  {
    assert TargetIndex(ts) == 0;
  }

  /** `x = 5 5`: a complete assignment followed by more tokens. */
  lemma Trailing()
    ensures Line([X, Equals, Num("5"), Num("5"), EofToken]).result == Err(TrailingTokens([Num("5"), EofToken]))
  {
    var ts := [X, Equals, Num("5"), Num("5"), EofToken];
    var rest := [Num("5"), EofToken];
    assert ts[2..] == PrintExpr(Lit("5")) + rest;
    ExpressionRoundTrip(Lit("5"), rest);
    AssignXStatement(ts);
  }

  /** `x =`: the expression finds only the sentinel. */
  lemma MissingOperand()
    ensures Line([X, Equals, EofToken]).result == Err(UnexpectedToken(EofToken))
  {
    var ts := [X, Equals, EofToken];
    assert Expression(ts[2..]).result == Err(UnexpectedToken(EofToken)) by {
      assert ts[2..] == [EofToken];
      assert Factor(ts[2..]).result == Err(UnexpectedToken(EofToken));
      assert Term(ts[2..]).result == Err(UnexpectedToken(EofToken));
    }
    AssignXStatement(ts);
  }

  /** `5 = x`: the target must be an identifier. */
  lemma NumberAsTarget()
    ensures Line([Num("5"), Equals, X, EofToken]).result == Err(ExpectedIdentifier(Num("5")))
  {
  }

  /** `x 5`: the target must be followed by `=`. */
  lemma MissingEquals()
    ensures Line([X, Num("5"), EofToken]).result == Err(ExpectedAssign(Num("5")))
  {
  }

  /** `x = (1`: the sentinel stands where `)` was expected. */
  lemma UnclosedParenthesis()
    ensures Line([X, Equals, Token(LParen, "("), Num("1"), EofToken]).result == Err(ExpectedRParen(EofToken))
  {
    var ts := [X, Equals, Token(LParen, "("), Num("1"), EofToken];
    assert ts[2..] == [LParenToken] + PrintExpr(Lit("1")) + [EofToken];
    MissingCloseParen(Lit("1"), [EofToken]);
    AssignXStatement(ts);
  }

}
