/** The grammar read as a language of token lists: concrete syntax trees
    that keep every parenthesis the line has, the token list each one spells,
    and the abstract tree the parser is meant to build from it. The parser
    accepts exactly these lists (with any parentheses, redundant or not) and
    builds exactly that tree.

      assignment := [DataType] Identifier '=' expression
      expression := expression ('+' | '-' | '%') term | term
      term       := term ('*' | '/') factor | factor
      factor     := ('-' | '!' | '~') factor | '(' expression ')' | Number | Identifier
*/
module ConcreteSyntax {
  import opened Syntax
  import opened Grammar
  import opened GrammarProps

  /** A derivation of the grammar: `CParen` is a pair of parentheses the
      line wrote, which the abstract tree does not keep. */
  datatype CExpr =
    | CVar(name: string)
    | CLit(value: string)
    | CUnary(op: string, operand: CExpr)
    | CBin(op: string, left: CExpr, right: CExpr)
    | CParen(inner: CExpr)

  /** An assignment line as written, without the end-of-input sentinel. */
  datatype CAssignment = CAssignment(dataType: Option<string>, target: string, right: CExpr)

  /** The `expression` rule. */
  predicate IsExprC(c: CExpr)
    decreases c, 2
  {
    if c.CBin? && c.op in AdditiveOps then IsExprC(c.left) && IsTermC(c.right)
    else IsTermC(c)
  }

  /** The `term` rule. */
  predicate IsTermC(c: CExpr)
    decreases c, 1
  {
    if c.CBin? && c.op in MultiplicativeOps then IsTermC(c.left) && IsFactorC(c.right)
    else IsFactorC(c)
  }

  /** The `factor` rule. */
  predicate IsFactorC(c: CExpr)
    decreases c, 0
  {
    match c
    case CVar(_) => true
    case CLit(_) => true
    case CUnary(op, x) => op in UnaryOps && IsFactorC(x)
    case CBin(_, _, _) => false
    case CParen(x) => IsExprC(x)
  }

  /** The tokens a derivation spells, parentheses included. */
  function Toks(c: CExpr): (ts: seq<Token>)
    ensures |ts| >= 1
  {
    match c
    case CVar(n) => [Token(Identifier, n)]
    case CLit(v) => [Token(Number, v)]
    case CUnary(op, x) => [Token(Operator, op)] + Toks(x)
    case CBin(op, l, r) => Toks(l) + [Token(Operator, op)] + Toks(r)
    case CParen(x) => [LParenToken] + Toks(x) + [RParenToken]
  }

  /** The tree the parser should build: parentheses leave no node. */
  function Abs(c: CExpr): (e: Expr)
    ensures IsFactorC(c) ==> WellFormed(e)
    ensures IsTermC(c) ==> WellFormed(e)
    ensures IsExprC(c) ==> WellFormed(e)
  {
    match c
    case CVar(n) => Var(n)
    case CLit(v) => Lit(v)
    case CUnary(op, x) => Unary(op, Abs(x))
    case CBin(op, l, r) => Binary(op, Abs(l), Abs(r))
    case CParen(x) => Abs(x)
  }

  /** The tokens of an assignment line. */
  function AssignToks(a: CAssignment): (ts: seq<Token>)
    ensures |ts| >= 3
  {
    (if a.dataType.Some? then [Token(DataType, a.dataType.value)] else []) +
    [Token(Identifier, a.target), Token(Assign, "=")] + Toks(a.right)
  }

  /** The assignment node the parser should build. */
  function AbsAssignment(a: CAssignment): (r: Assignment)
    ensures r.left == Var(a.target) && r.dataType == a.dataType
  {
    Assignment(a.dataType, Var(a.target), Abs(a.right))
  }

  // ---------------------------------------------------------------------------
  // Completeness: every derivation is parsed, to its abstract tree

  /** A factor as written parses to its tree whatever follows it. */
  lemma {:induction false} FactorParses(c: CExpr, suffix: seq<Token>)
    requires IsFactorC(c)
    ensures Factor(Toks(c) + suffix) == Parsed(Ok(Abs(c)), suffix)
    decreases c, 0
  {
    var ts := Toks(c) + suffix;
    match c
    case CVar(_) =>
      assert ts[1..] == suffix;
    case CLit(_) =>
      assert ts[1..] == suffix;
    case CUnary(op, x) =>
      assert ts[1..] == Toks(x) + suffix;
      FactorParses(x, suffix);
    case CParen(x) =>
      ParenParses(x, suffix);
  }

  /** Parentheses around an expression make one factor and leave no node. */
  lemma {:induction false} ParenParses(x: CExpr, suffix: seq<Token>)
    requires IsExprC(x)
    ensures Factor([LParenToken] + Toks(x) + [RParenToken] + suffix) == Parsed(Ok(Abs(x)), suffix)
    decreases x, 3
  {
    var closed := [RParenToken] + suffix;
    var ts := [LParenToken] + Toks(x) + [RParenToken] + suffix;
    assert ts[1..] == Toks(x) + closed;
    ExpressionParses(x, closed);
    assert CloseParen(Abs(x), closed) == Parsed(Ok(Abs(x)), suffix) by {
      assert closed[1..] == suffix;
    }
  }

  /** A term as written parses to the `* /` loop resumed with its tree. */
  lemma {:induction false} TermParses(c: CExpr, suffix: seq<Token>)
    requires IsTermC(c)
    ensures Term(Toks(c) + suffix) == TermTail(Abs(c), suffix)
    decreases c, 1
  {
    if c.CBin? && c.op in MultiplicativeOps {
      var opToken := Token(Operator, c.op);
      var right := Toks(c.right) + suffix;
      assert Toks(c) + suffix == Toks(c.left) + ([opToken] + right);
      TermParses(c.left, [opToken] + right);
      FactorParses(c.right, suffix);
      TermTailAt(Abs(c.left), opToken, right, Abs(c.right), suffix);
    } else {
      FactorParses(c, suffix);
    }
  }

  /** An expression as written parses to the `+ - %` loop resumed with its
      tree, so to its tree when no binary operator follows. */
  lemma {:induction false} ExpressionParses(c: CExpr, suffix: seq<Token>)
    requires IsExprC(c) && !StartsWithOp(suffix, MultiplicativeOps)
    ensures Expression(Toks(c) + suffix) == ExpressionTail(Abs(c), suffix)
    ensures !StartsWithOp(suffix, AdditiveOps) ==> Expression(Toks(c) + suffix) == Parsed(Ok(Abs(c)), suffix)
    decreases c, 2
  {
    if c.CBin? && c.op in AdditiveOps {
      var opToken := Token(Operator, c.op);
      var right := Toks(c.right) + suffix;
      assert Toks(c) + suffix == Toks(c.left) + ([opToken] + right);
      ExpressionParses(c.left, [opToken] + right);
      TermParses(c.right, suffix);
      assert TermTail(Abs(c.right), suffix) == Parsed(Ok(Abs(c.right)), suffix);
      ExpressionTailAt(Abs(c.left), opToken, right, Abs(c.right), suffix);
    } else {
      TermParses(c, suffix);
      assert TermTail(Abs(c), suffix) == Parsed(Ok(Abs(c)), suffix);
    }
  }

  /** `parse_assignment` on a target, `=` and a right-hand side that parses. */
  lemma StatementAtUntyped(ts: seq<Token>, right: Expr, rest: seq<Token>)
    requires 2 <= |ts| && ts[0].kind == Identifier && ts[1].kind == Assign
    requires Expression(ts[2..]) == Parsed(Ok(right), rest)
    ensures Statement(ts) == Parsed(Ok(Assignment(None, Var(ts[0].lexeme), right)), rest)
  {
  }

  /** `parse_assignment` on a type, a target, `=` and a right-hand side that parses. */
  lemma StatementAtTyped(ts: seq<Token>, right: Expr, rest: seq<Token>)
    requires 3 <= |ts| && ts[0].kind == DataType && ts[1].kind == Identifier && ts[2].kind == Assign
    requires Expression(ts[3..]) == Parsed(Ok(right), rest)
    ensures Statement(ts) == Parsed(Ok(Assignment(Some(ts[0].lexeme), Var(ts[1].lexeme), right)), rest)
  {
  }

  lemma StatementParses(a: CAssignment)
    requires IsExprC(a.right)
    ensures Statement(AssignToks(a) + [EofToken]) == Parsed(Ok(AbsAssignment(a)), [EofToken])
  {
    RightSideParses(a);
    if a.dataType.None? {
      UntypedStatementParses(a);
    } else {
      TypedStatementParses(a);
    }
  }

  /** The right-hand side of a line parses to its tree and leaves the end. */
  lemma RightSideParses(a: CAssignment)
    requires IsExprC(a.right)
    ensures Expression(Toks(a.right) + [EofToken]) == Parsed(Ok(Abs(a.right)), [EofToken])
  {
    ExpressionParses(a.right, [EofToken]);
    assert !StartsWithOp([EofToken], AdditiveOps);
  }

  lemma UntypedStatementParses(a: CAssignment)
    requires a.dataType.None?
    requires Expression(Toks(a.right) + [EofToken]) == Parsed(Ok(Abs(a.right)), [EofToken])
    ensures Statement(AssignToks(a) + [EofToken]) == Parsed(Ok(AbsAssignment(a)), [EofToken])
  {
    UntypedLayout(a, [EofToken]);
    StatementAtUntyped(AssignToks(a) + [EofToken], Abs(a.right), [EofToken]);
  }

  lemma TypedStatementParses(a: CAssignment)
    requires a.dataType.Some?
    requires Expression(Toks(a.right) + [EofToken]) == Parsed(Ok(Abs(a.right)), [EofToken])
    ensures Statement(AssignToks(a) + [EofToken]) == Parsed(Ok(AbsAssignment(a)), [EofToken])
  {
    TypedLayout(a, [EofToken]);
    StatementAtTyped(AssignToks(a) + [EofToken], Abs(a.right), [EofToken]);
  }

  /** Where the parts of an untyped line sit in its tokens. */
  lemma UntypedLayout(a: CAssignment, rest: seq<Token>)
    requires a.dataType.None?
    ensures var ts := AssignToks(a) + rest;
      2 <= |ts| && ts[0] == Token(Identifier, a.target) && ts[1] == Token(Assign, "=") &&
      ts[2..] == Toks(a.right) + rest
  {
    var line := [Token(Identifier, a.target), Token(Assign, "=")];
    assert AssignToks(a) == line + Toks(a.right);
    assert AssignToks(a) + rest == line + (Toks(a.right) + rest);
  }

  /** Where the parts of a typed line sit in its tokens. */
  lemma TypedLayout(a: CAssignment, rest: seq<Token>)
    requires a.dataType.Some?
    ensures var ts := AssignToks(a) + rest;
      3 <= |ts| && ts[0] == Token(DataType, a.dataType.value) && ts[1] == Token(Identifier, a.target) &&
      ts[2] == Token(Assign, "=") && ts[3..] == Toks(a.right) + rest
  {
    var typed := [Token(DataType, a.dataType.value), Token(Identifier, a.target), Token(Assign, "=")];
    assert AssignToks(a) == typed + Toks(a.right);
    assert AssignToks(a) + rest == typed + (Toks(a.right) + rest);
  }

  /** Every line the grammar derives, with any parentheses, is accepted by
      `parse` and gives the tree of its derivation. */
  lemma LineParses(a: CAssignment)
    requires IsExprC(a.right)
    ensures Line(AssignToks(a) + [EofToken]) == Parsed(Ok(AbsAssignment(a)), [EofToken])
  {
    StatementParses(a);
  }

  // ---------------------------------------------------------------------------
  // Soundness: whatever the parser accepts is derived by the grammar. The
  // parser looks only at the kind of `=`, `(` and `)` tokens, so the lists
  // are those whose one-character tokens carry their character.

  lemma SpelledSuffix(rest: seq<Token>, ts: seq<Token>)
    requires AllSpelled(ts) && IsSuffix(rest, ts)
    ensures AllSpelled(rest)
  {
    var d := |ts| - |rest|;
    assert forall i :: 0 <= i < |rest| ==> rest[i] == ts[d + i];
  }

  /** `parse_factor` at a unary operator, when it succeeds. */
  lemma FactorAtUnary(ts: seq<Token>)
    requires ts != [] && ts[0].kind == Operator && ts[0].lexeme in UnaryOps && Factor(ts).result.Ok?
    ensures var o := Factor(ts[1..]);
      o.result.Ok? && Factor(ts) == Parsed(Ok(Unary(ts[0].lexeme, o.result.value)), o.rest)
  {
  }

  /** `parse_factor` at `(`, when it succeeds. */
  lemma FactorAtParen(ts: seq<Token>)
    requires ts != [] && ts[0].kind == LParen && Factor(ts).result.Ok?
    ensures var o := Expression(ts[1..]);
      o.result.Ok? && o.rest != [] && o.rest[0].kind == RParen &&
      Factor(ts) == Parsed(Ok(o.result.value), o.rest[1..])
  {
  }

  /** `parse_factor` at a number or an identifier. */
  lemma FactorAtLeaf(ts: seq<Token>)
    requires ts != [] && !(ts[0].kind == Operator && ts[0].lexeme in UnaryOps) && ts[0].kind != LParen
    requires Factor(ts).result.Ok?
    ensures ts[0].kind == Number ==> Factor(ts) == Parsed(Ok(Lit(ts[0].lexeme)), ts[1..])
    ensures ts[0].kind != Number ==> ts[0].kind == Identifier && Factor(ts) == Parsed(Ok(Var(ts[0].lexeme)), ts[1..])
  {
  }

  /** One round of the `* /` loop, when the loop succeeds. */
  lemma TermTailStep(left: Expr, ts: seq<Token>)
    requires WellFormed(left) && StartsWithOp(ts, MultiplicativeOps) && TermTail(left, ts).result.Ok?
    ensures var o := Factor(ts[1..]);
      o.result.Ok? && TermTail(left, ts) == TermTail(Binary(ts[0].lexeme, left, o.result.value), o.rest)
  {
  }

  /** The `+ - %` loop succeeds only where its right operand parses. */
  lemma ExpressionTailOperand(left: Expr, ts: seq<Token>)
    requires WellFormed(left) && StartsWithOp(ts, AdditiveOps) && ExpressionTail(left, ts).result.Ok?
    ensures Term(ts[1..]).result.Ok?
  {
  }

  /** One round of the `+ - %` loop, once its right operand has parsed. */
  lemma ExpressionTailStep(left: Expr, ts: seq<Token>, right: Expr, rest: seq<Token>)
    requires WellFormed(left) && StartsWithOp(ts, AdditiveOps) && Term(ts[1..]) == Parsed(Ok(right), rest)
    ensures WellFormed(Binary(ts[0].lexeme, left, right))
    ensures ExpressionTail(left, ts) == ExpressionTail(Binary(ts[0].lexeme, left, right), rest)
  {
  }

  /** `parse_term`, when it succeeds: a factor, then the loop. */
  lemma TermStep(ts: seq<Token>)
    requires Term(ts).result.Ok?
    ensures var o := Factor(ts);
      o.result.Ok? && Term(ts) == TermTail(o.result.value, o.rest)
  {
  }

  /** `parse_expression`, when it succeeds: a term, then the loop. */
  lemma ExpressionStep(ts: seq<Token>)
    requires Expression(ts).result.Ok?
    ensures var o := Term(ts);
      o.result.Ok? && Expression(ts) == ExpressionTail(o.result.value, o.rest)
  {
  }

  /** A factor the parser accepts is a derivation followed by the rest, and
      the tree is that derivation's. */
  lemma {:induction false} FactorDerivation(ts: seq<Token>) returns (c: CExpr)
    requires AllSpelled(ts) && Factor(ts).result.Ok?
    ensures IsFactorC(c) && ts == Toks(c) + Factor(ts).rest && Abs(c) == Factor(ts).result.value
    decreases |ts|, 1
  {
    var t := ts[0];
    if t.kind == Operator && t.lexeme in UnaryOps {
      c := UnaryDerivation(ts);
    } else if t.kind == LParen {
      c := ParenDerivation(ts);
    } else {
      FactorAtLeaf(ts);
      c := if t.kind == Number then CLit(t.lexeme) else CVar(t.lexeme);
      assert ts == [t] + ts[1..];
    }
  }

  /** The unary case of `FactorDerivation`. */
  lemma {:induction false} UnaryDerivation(ts: seq<Token>) returns (c: CExpr)
    requires AllSpelled(ts) && ts != [] && ts[0].kind == Operator && ts[0].lexeme in UnaryOps
    requires Factor(ts).result.Ok?
    ensures IsFactorC(c) && ts == Toks(c) + Factor(ts).rest && Abs(c) == Factor(ts).result.value
    decreases |ts|, 0
  {
    FactorAtUnary(ts);
    DropFirst(ts);
    SpelledSuffix(ts[1..], ts);
    var x := FactorDerivation(ts[1..]);
    c := CUnary(ts[0].lexeme, x);
    UnaryTokens(ts, x, Factor(ts).rest);
    assert Abs(c) == Unary(ts[0].lexeme, Abs(x));
  }

  /** The token layout of a unary factor. */
  lemma UnaryTokens(ts: seq<Token>, x: CExpr, rest: seq<Token>)
    requires ts != [] && ts[0].kind == Operator && ts[1..] == Toks(x) + rest
    ensures ts == Toks(CUnary(ts[0].lexeme, x)) + rest
  {
    assert ts == [Token(Operator, ts[0].lexeme)] + (Toks(x) + rest);
  }

  /** The parenthesised case of `FactorDerivation`. */
  lemma {:induction false} ParenDerivation(ts: seq<Token>) returns (c: CExpr)
    requires AllSpelled(ts) && ts != [] && ts[0].kind == LParen && Factor(ts).result.Ok?
    ensures IsFactorC(c) && ts == Toks(c) + Factor(ts).rest && Abs(c) == Factor(ts).result.value
    decreases |ts|, 0
  {
    FactorAtParen(ts);
    DropFirst(ts);
    SpelledSuffix(ts[1..], ts);
    var o := Expression(ts[1..]);
    var x := ExpressionDerivation(ts[1..]);
    c := CParen(x);
    ParenTokens(ts, o.rest, x);
  }

  /** The token layout of a parenthesised factor. */
  lemma ParenTokens(ts: seq<Token>, rest: seq<Token>, x: CExpr)
    requires AllSpelled(ts) && ts != [] && ts[0].kind == LParen
    requires ts[1..] == Toks(x) + rest && rest != [] && rest[0].kind == RParen
    ensures ts == Toks(CParen(x)) + rest[1..]
  {
    assert Spelled(ts[0]);
    assert Spelled(ts[1 + |Toks(x)|]) && ts[1 + |Toks(x)|] == rest[0];
    assert rest == [RParenToken] + rest[1..];
    assert ts == [ts[0]] + ts[1..];
  }

  /** The token layout of one round of a binary loop. */
  lemma BinTokens(left: CExpr, ts: seq<Token>, r: CExpr, rest: seq<Token>)
    requires ts != [] && ts[0].kind == Operator && ts[1..] == Toks(r) + rest
    ensures Toks(left) + ts == Toks(CBin(ts[0].lexeme, left, r)) + rest
  {
    assert ts == [Token(Operator, ts[0].lexeme)] + (Toks(r) + rest);
  }

  lemma FactorIsTerm(c: CExpr)
    requires IsFactorC(c)
    ensures IsTermC(c)
  {
  }

  lemma TermIsExpr(c: CExpr)
    requires IsTermC(c)
    ensures IsExprC(c)
  {
  }

  /** The `* /` loop extends the derivation of its running left operand. */
  lemma {:induction false} TermTailDerivation(left: CExpr, ts: seq<Token>) returns (c: CExpr)
    requires AllSpelled(ts) && IsTermC(left) && TermTail(Abs(left), ts).result.Ok?
    ensures IsTermC(c) && Toks(left) + ts == Toks(c) + TermTail(Abs(left), ts).rest &&
      Abs(c) == TermTail(Abs(left), ts).result.value
    decreases |ts|, 2
  {
    if StartsWithOp(ts, MultiplicativeOps) {
      TermTailStep(Abs(left), ts);
      DropFirst(ts);
      SpelledSuffix(ts[1..], ts);
      var o := Factor(ts[1..]);
      var r := FactorDerivation(ts[1..]);
      SpelledSuffix(o.rest, ts[1..]);
      var next := CBin(ts[0].lexeme, left, r);
      BinTokens(left, ts, r, o.rest);
      c := TermTailDerivation(next, o.rest);
    } else {
      c := left;
    }
  }

  lemma TermDerivation(ts: seq<Token>) returns (c: CExpr)
    requires AllSpelled(ts) && Term(ts).result.Ok?
    ensures IsTermC(c) && ts == Toks(c) + Term(ts).rest && Abs(c) == Term(ts).result.value
    decreases |ts|, 3
  {
    TermStep(ts);
    var f := FactorDerivation(ts);
    FactorIsTerm(f);
    SpelledSuffix(Factor(ts).rest, ts);
    c := TermTailDerivation(f, Factor(ts).rest);
  }

  /** The right operand of one round of the `+ - %` loop, read as a derivation. */
  lemma OperandDerivation(ts: seq<Token>) returns (r: CExpr, rest: seq<Token>)
    requires AllSpelled(ts) && ts != [] && Term(ts[1..]).result.Ok?
    ensures IsTermC(r) && AllSpelled(rest) && |rest| < |ts|
    ensures ts[1..] == Toks(r) + rest && rest == Term(ts[1..]).rest
    ensures Abs(r) == Term(ts[1..]).result.value
    decreases |ts|, 4
  {
    DropFirst(ts);
    SpelledSuffix(ts[1..], ts);
    r := TermDerivation(ts[1..]);
    rest := Term(ts[1..]).rest;
    SpelledSuffix(rest, ts[1..]);
  }

  /** One round of the `+ - %` loop, read as a derivation step: the running
      left operand grows by an operator and a term. */
  lemma ExpressionTailRound(left: CExpr, ts: seq<Token>) returns (next: CExpr, rest: seq<Token>)
    requires AllSpelled(ts) && IsExprC(left) && ExpressionTail(Abs(left), ts).result.Ok?
    requires StartsWithOp(ts, AdditiveOps)
    ensures IsExprC(next) && AllSpelled(rest) && |rest| < |ts|
    ensures Toks(left) + ts == Toks(next) + rest
    ensures ExpressionTail(Abs(left), ts) == ExpressionTail(Abs(next), rest)
    decreases |ts|, 5
  {
    ExpressionTailOperand(Abs(left), ts);
    var r;
    r, rest := OperandDerivation(ts);
    next := CBin(ts[0].lexeme, left, r);
    BinTokens(left, ts, r, rest);
    ExpressionTailOfBin(left, ts, r, rest);
  }

  /** The loop continues from the grown operand's tree. */
  lemma ExpressionTailOfBin(left: CExpr, ts: seq<Token>, r: CExpr, rest: seq<Token>)
    requires IsExprC(left) && IsTermC(r) && StartsWithOp(ts, AdditiveOps)
    requires Term(ts[1..]) == Parsed(Ok(Abs(r)), rest)
    ensures IsExprC(CBin(ts[0].lexeme, left, r))
    ensures ExpressionTail(Abs(left), ts) == ExpressionTail(Abs(CBin(ts[0].lexeme, left, r)), rest)
  {
    ExpressionTailStep(Abs(left), ts, Abs(r), rest);
    assert Abs(CBin(ts[0].lexeme, left, r)) == Binary(ts[0].lexeme, Abs(left), Abs(r));
  }

  /** The `+ - %` loop extends the derivation of its running left operand. */
  lemma {:induction false} ExpressionTailDerivation(left: CExpr, ts: seq<Token>) returns (c: CExpr)
    requires AllSpelled(ts) && IsExprC(left) && ExpressionTail(Abs(left), ts).result.Ok?
    ensures IsExprC(c) && Toks(left) + ts == Toks(c) + ExpressionTail(Abs(left), ts).rest &&
      Abs(c) == ExpressionTail(Abs(left), ts).result.value
    decreases |ts|, 6
  {
    if StartsWithOp(ts, AdditiveOps) {
      var next, rest := ExpressionTailRound(left, ts);
      c := ExpressionTailDerivation(next, rest);
    } else {
      c := left;
    }
  }

  lemma ExpressionDerivation(ts: seq<Token>) returns (c: CExpr)
    requires AllSpelled(ts) && Expression(ts).result.Ok?
    ensures IsExprC(c) && ts == Toks(c) + Expression(ts).rest && Abs(c) == Expression(ts).result.value
    decreases |ts|, 7
  {
    ExpressionStep(ts);
    var t := TermDerivation(ts);
    TermIsExpr(t);
    SpelledSuffix(Term(ts).rest, ts);
    c := ExpressionTailDerivation(t, Term(ts).rest);
  }

  /** Whatever `parse_expression` accepts is an expression of the grammar
      followed by what it leaves, and its tree is that expression's. */
  lemma ExpressionIsDerived(ts: seq<Token>)
    requires AllSpelled(ts) && Expression(ts).result.Ok?
    ensures exists c :: IsExprC(c) && ts == Toks(c) + Expression(ts).rest && Abs(c) == Expression(ts).result.value
  {
    var c := ExpressionDerivation(ts);
  }

  /** Whatever `parse` accepts is an assignment line of the grammar followed
      by nothing or by the end of input, and its tree is that line's. */
  lemma LineIsDerived(ts: seq<Token>)
    requires AllSpelled(ts) && Line(ts).result.Ok?
    ensures exists a: CAssignment ::
      IsExprC(a.right) && AbsAssignment(a) == Line(ts).result.value &&
      ts == AssignToks(a) + Line(ts).rest && (Line(ts).rest == [] || Line(ts).rest[0].kind == Eof)
  {
    LineStep(ts);
    var a := StatementDerivation(ts);
  }

  /** `parse` succeeds only where `parse_assignment` does, and leaves what it left. */
  lemma LineStep(ts: seq<Token>)
    requires Line(ts).result.Ok?
    ensures Line(ts) == Statement(ts)
  {
  }

  /** `parse_assignment`, when it succeeds: the optional type, the target,
      `=`, and an expression. */
  lemma StatementStep(ts: seq<Token>) returns (k: nat, body: seq<Token>)
    requires Statement(ts).result.Ok?
    ensures k == TargetIndex(ts) && k + 2 <= |ts| && body == ts[k + 2..]
    ensures ts[k].kind == Identifier && ts[k + 1].kind == Assign
    ensures var a := Statement(ts).result.value;
      a.dataType == (if k == 1 then Some(ts[0].lexeme) else None) && a.left == Var(ts[k].lexeme) &&
      Expression(body) == Parsed(Ok(a.right), Statement(ts).rest)
  {
    k := TargetIndex(ts);
    body := ts[k + 2..];
  }

  lemma StatementDerivation(ts: seq<Token>) returns (a: CAssignment)
    requires AllSpelled(ts) && Statement(ts).result.Ok?
    ensures IsExprC(a.right) && AbsAssignment(a) == Statement(ts).result.value &&
      ts == AssignToks(a) + Statement(ts).rest
  {
    var k, body := StatementStep(ts);
    a := AssignmentDerivation(ts, k, Statement(ts).rest);
  }

  /** An assignment line whose right-hand side the parser accepts, read as a
      derivation. */
  lemma AssignmentDerivation(ts: seq<Token>, k: nat, rest: seq<Token>) returns (a: CAssignment)
    requires AllSpelled(ts) && k == TargetIndex(ts) && k + 2 <= |ts|
    requires ts[k].kind == Identifier && ts[k + 1].kind == Assign
    requires Expression(ts[k + 2..]).result.Ok? && Expression(ts[k + 2..]).rest == rest
    ensures IsExprC(a.right) && Abs(a.right) == Expression(ts[k + 2..]).result.value
    ensures a.target == ts[k].lexeme && a.dataType == (if k == 1 then Some(ts[0].lexeme) else None)
    ensures ts == AssignToks(a) + rest
  {
    var body := ts[k + 2..];
    SpelledSuffix(body, ts);
    var x := ExpressionDerivation(body);
    a := CAssignment(if k == 1 then Some(ts[0].lexeme) else None, ts[k].lexeme, x);
    AssignmentLayout(ts, a, rest);
  }

  /** The token layout of an assignment line. */
  lemma AssignmentLayout(ts: seq<Token>, a: CAssignment, rest: seq<Token>)
    requires AllSpelled(ts)
    requires var k := TargetIndex(ts);
      k + 2 <= |ts| && ts[k].kind == Identifier && ts[k + 1].kind == Assign &&
      a.target == ts[k].lexeme && a.dataType == (if k == 1 then Some(ts[0].lexeme) else None) &&
      ts[k + 2..] == Toks(a.right) + rest
    ensures ts == AssignToks(a) + rest
  {
    var k := TargetIndex(ts);
    assert Spelled(ts[k + 1]);
    var line := [Token(Identifier, a.target), Token(Assign, "=")];
    var head := if k == 1 then [Token(DataType, ts[0].lexeme)] else [];
    assert AssignToks(a) + rest == head + line + (Toks(a.right) + rest);
    assert ts[..k] == head && ts[k..k + 2] == line;
    assert ts == ts[..k] + ts[k..k + 2] + ts[k + 2..];
  }
}
