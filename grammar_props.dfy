/** Precedence and associativity of the grammar, stated against an
    independent printer: printing a tree with the fewest parentheses the
    precedence rules need and parsing the tokens back gives the same tree. */
module GrammarProps {
  import opened Syntax
  import opened Grammar

  const LParenToken: Token := Token(LParen, "(")
  const RParenToken: Token := Token(RParen, ")")

  predicate IsAdditive(e: Expr)
  {
    e.Binary? && e.op in AdditiveOps
  }

  predicate IsMultiplicative(e: Expr)
  {
    e.Binary? && e.op in MultiplicativeOps
  }

  /** Tokens for `e` where an expression is expected. A `+ - %` node's left
      operand is printed at this level and its right operand one level up,
      which is what makes the level left-associative. */
  function PrintExpr(e: Expr): (ts: seq<Token>)
    decreases e, 3
  {
    if IsAdditive(e) then PrintBinary(e) else PrintTerm(e)
  }

  /** Tokens for `e` where a term is expected. */
  function PrintTerm(e: Expr): (ts: seq<Token>)
    decreases e, 2
  {
    if IsMultiplicative(e) then PrintBinary(e) else PrintFactor(e)
  }

  /** Tokens for `e` where a factor is expected: leaves and unary chains as
      they are, binary nodes inside parentheses. */
  function PrintFactor(e: Expr): (ts: seq<Token>)
    decreases e, 1
  {
    match e
    case Var(n) => [Token(Identifier, n)]
    case Lit(v) => [Token(Number, v)]
    case Unary(op, x) => [Token(Operator, op)] + PrintFactor(x)
    case Binary(_, _, _) => [LParenToken] + PrintBinary(e) + [RParenToken]
  }

  function PrintBinary(e: Expr): (ts: seq<Token>)
    requires e.Binary?
    decreases e, 0
  {
    if e.op in AdditiveOps then PrintExpr(e.left) + [Token(Operator, e.op)] + PrintTerm(e.right)
    else PrintTerm(e.left) + [Token(Operator, e.op)] + PrintFactor(e.right)
  }

  /** The tokens of an assignment, without the end-of-input sentinel. */
  function PrintAssignment(a: Assignment): (ts: seq<Token>)
    requires a.left.Var?
  {
    (if a.dataType.Some? then [Token(DataType, a.dataType.value)] else []) +
    [Token(Identifier, a.left.name), Token(Assign, "=")] + PrintExpr(a.right)
  }

  /** A factor parses back from its tokens whatever follows it: unary
      operators nest to the right and parentheses leave no node of their own. */
  lemma {:induction false} FactorRoundTrip(e: Expr, suffix: seq<Token>)
    requires WellFormed(e)
    ensures Factor(PrintFactor(e) + suffix) == Parsed(Ok(e), suffix)
    decreases e, 3
  {
    var ts := PrintFactor(e) + suffix;
    match e
    case Var(n) =>
      assert ts[1..] == suffix;
    case Lit(v) =>
      assert ts[1..] == suffix;
    case Unary(op, x) =>
      assert ts[1..] == PrintFactor(x) + suffix;
      FactorRoundTrip(x, suffix);
    case Binary(_, _, _) =>
      ParenthesisedRoundTrip(e, suffix);
  }

  /** A binary node inside parentheses is one factor. */
  lemma {:induction false} ParenthesisedRoundTrip(e: Expr, suffix: seq<Token>)
    requires WellFormed(e) && e.Binary?
    ensures Factor([LParenToken] + PrintBinary(e) + [RParenToken] + suffix) == Parsed(Ok(e), suffix)
    decreases e, 2
  {
    var closed := [RParenToken] + suffix;
    var ts := [LParenToken] + PrintBinary(e) + [RParenToken] + suffix;
    assert ts[1..] == PrintBinary(e) + closed;
    BinaryRoundTrip(e, closed);
    assert CloseParen(e, closed) == Parsed(Ok(e), suffix) by {
      assert closed[1..] == suffix;
    }
  }

  /** One round of the `* /` loop at an operator token. */
  lemma TermTailAt(left: Expr, t: Token, ts: seq<Token>, right: Expr, rest: seq<Token>)
    requires WellFormed(left) && t.kind == Operator && t.lexeme in MultiplicativeOps
    requires Factor(ts) == Parsed(Ok(right), rest)
    ensures TermTail(left, [t] + ts) == TermTail(Binary(t.lexeme, left, right), rest)
  {
    assert ([t] + ts)[1..] == ts;
  }

  /** One round of the `+ - %` loop at an operator token. */
  lemma ExpressionTailAt(left: Expr, t: Token, ts: seq<Token>, right: Expr, rest: seq<Token>)
    requires WellFormed(left) && t.kind == Operator && t.lexeme in AdditiveOps
    requires Term(ts) == Parsed(Ok(right), rest)
    ensures ExpressionTail(left, [t] + ts) == ExpressionTail(Binary(t.lexeme, left, right), rest)
  {
    assert ([t] + ts)[1..] == ts;
  }

  /** A term parses back to the `* /` loop resumed with that term as its
      running left operand. */
  lemma {:induction false} TermRoundTrip(e: Expr, suffix: seq<Token>)
    requires WellFormed(e)
    ensures Term(PrintTerm(e) + suffix) == TermTail(e, suffix)
    decreases e, 4
  {
    if IsMultiplicative(e) {
      MultiplicativeRoundTrip(e, suffix);
    } else {
      assert PrintTerm(e) == PrintFactor(e);
      FactorRoundTrip(e, suffix);
    }
  }

  /** The `* /` case of `TermRoundTrip`. */
  lemma {:induction false} MultiplicativeRoundTrip(e: Expr, suffix: seq<Token>)
    requires WellFormed(e) && IsMultiplicative(e)
    ensures Term(PrintBinary(e) + suffix) == TermTail(e, suffix)
    decreases e, 0
  {
    var opToken := Token(Operator, e.op);
    var right := PrintFactor(e.right) + suffix;
    assert PrintBinary(e) + suffix == PrintTerm(e.left) + ([opToken] + right);
    TermRoundTrip(e.left, [opToken] + right);
    FactorRoundTrip(e.right, suffix);
    TermTailAt(e.left, opToken, right, e.right, suffix);
  }

  /** The `+ - %` case of `ExpressionRoundTrip`. */
  lemma {:induction false} AdditiveRoundTrip(e: Expr, suffix: seq<Token>)
    requires WellFormed(e) && IsAdditive(e) && !StartsWithOp(suffix, MultiplicativeOps)
    ensures Expression(PrintBinary(e) + suffix) == ExpressionTail(e, suffix)
    decreases e, 0
  {
    var opToken := Token(Operator, e.op);
    var right := PrintTerm(e.right) + suffix;
    assert PrintBinary(e) + suffix == PrintExpr(e.left) + ([opToken] + right);
    ExpressionRoundTrip(e.left, [opToken] + right);
    TermRoundTrip(e.right, suffix);
    assert TermTail(e.right, suffix) == Parsed(Ok(e.right), suffix);
    ExpressionTailAt(e.left, opToken, right, e.right, suffix);
  }

  /** An expression parses back to the `+ - %` loop resumed with that
      expression as its running left operand, and so to itself when the next
      token is no binary operator. */
  lemma {:induction false} ExpressionRoundTrip(e: Expr, suffix: seq<Token>)
    requires WellFormed(e) && !StartsWithOp(suffix, MultiplicativeOps)
    ensures Expression(PrintExpr(e) + suffix) == ExpressionTail(e, suffix)
    ensures !StartsWithOp(suffix, AdditiveOps) ==> Expression(PrintExpr(e) + suffix) == Parsed(Ok(e), suffix)
    decreases e, 5
  {
    if IsAdditive(e) {
      AdditiveRoundTrip(e, suffix);
    } else {
      assert PrintExpr(e) == PrintTerm(e);
      TermRoundTrip(e, suffix);
      assert TermTail(e, suffix) == Parsed(Ok(e), suffix);
    }
  }

  /** The inside of a parenthesised binary node parses back to that node. */
  lemma {:induction false} BinaryRoundTrip(e: Expr, suffix: seq<Token>)
    requires WellFormed(e) && e.Binary?
    requires !StartsWithOp(suffix, AdditiveOps) && !StartsWithOp(suffix, MultiplicativeOps)
    ensures Expression(PrintBinary(e) + suffix) == Parsed(Ok(e), suffix)
    decreases e, 1
  {
    if e.op in AdditiveOps {
      AdditiveRoundTrip(e, suffix);
    } else {
      MultiplicativeRoundTrip(e, suffix);
      assert TermTail(e, suffix) == Parsed(Ok(e), suffix);
    }
  }

  /** A parenthesis left open: whatever token follows the inner expression
      is reported where `)` was expected, and the error ends the parse. */
  lemma MissingCloseParen(e: Expr, rest: seq<Token>)
    requires WellFormed(e) && rest != [] && rest[0].kind != RParen
    requires !StartsWithOp(rest, AdditiveOps) && !StartsWithOp(rest, MultiplicativeOps)
    ensures Expression([LParenToken] + PrintExpr(e) + rest).result == Err(ExpectedRParen(rest[0]))
  {
    var ts := [LParenToken] + PrintExpr(e) + rest;
    assert ts[1..] == PrintExpr(e) + rest;
    ExpressionRoundTrip(e, rest);
    assert Factor(ts) == CloseParen(e, rest);
    assert Term(ts).result == Factor(ts).result;
  }

  /** Every well-formed assignment is parsed back from its tokens and the
      end-of-input sentinel, with the 'Data Type' entry present exactly when
      the type token is. */
  lemma LineRoundTrip(a: Assignment)
    requires a.left.Var? && WellFormed(a.right)
    ensures Line(PrintAssignment(a) + [EofToken]) == Parsed(Ok(a), [EofToken])
  {
    StatementRoundTrip(a);
  }

  lemma StatementRoundTrip(a: Assignment)
    requires a.left.Var? && WellFormed(a.right)
    ensures Statement(PrintAssignment(a) + [EofToken]) == Parsed(Ok(a), [EofToken])
  {
    AssignmentTokens(a);
    ExpressionRoundTrip(a.right, [EofToken]);
  }

  /** Where the parts of an assignment sit in its tokens. */
  lemma AssignmentTokens(a: Assignment)
    requires a.left.Var?
    ensures var ts := PrintAssignment(a) + [EofToken];
      var k := TargetIndex(ts);
      k == (if a.dataType.Some? then 1 else 0) && k + 2 <= |ts| &&
      ts[k + 2..] == PrintExpr(a.right) + [EofToken] &&
      ts[k] == Token(Identifier, a.left.name) && ts[k + 1].kind == Assign &&
      (k == 1 ==> ts[0].lexeme == a.dataType.value)
  {
    var head := if a.dataType.Some? then [Token(DataType, a.dataType.value)] else [];
    var body := PrintExpr(a.right) + [EofToken];
    var ts := PrintAssignment(a) + [EofToken];
    assert ts == head + ([Token(Identifier, a.left.name), Token(Assign, "=")] + body);
  }

  /** What the parser returns does not depend on how the input was
      bracketed: the canonical printing of the tree, followed by what the
      parser left, parses to the same tree and leaves the same tokens. */
  lemma Reparse(ts: seq<Token>)
    requires Expression(ts).result.Ok?
    ensures var o := Expression(ts);
      Expression(PrintExpr(o.result.value) + o.rest) == o
  {
    var o := Expression(ts);
    ExpressionRoundTrip(o.result.value, o.rest);
  }
}
