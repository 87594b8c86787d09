/** The parser as the source runs it: every parse function pops tokens off
    the front of one shared, mutable list. Each method is proved to leave
    the result and the list that the matching `Grammar` function gives. */
module Parser {
  import opened Syntax
  import opened Grammar

  /** The token list the parse functions share and consume in place. */
  class TokenStream {
    var items: seq<Token>

    constructor (ts: seq<Token>)
      ensures items == ts
    {
      items := ts;
    }

    /** `tokens.pop(0)` */
    method PopFront() returns (r: Result<Token>)
      modifies this
      ensures Parsed(r, items) == Pop(old(items))
    {
      if items == [] {
        r := Err(PopFromEmpty);
      } else {
        r := Ok(items[0]);
        items := items[1..];
      }
    }
  }

  /** `parse_factor` */
  method ParseFactor(tokens: TokenStream) returns (r: Result<Expr>)
    modifies tokens
    ensures Parsed(r, tokens.items) == Factor(old(tokens.items))
    decreases |tokens.items|, 0
  {
    var t :- tokens.PopFront();
    if t.kind == Operator && t.lexeme in UnaryOps {
      var operand :- ParseFactor(tokens);
      return Ok(Unary(t.lexeme, operand));
    } else if t.kind == LParen {
      var e :- ParseExpression(tokens);
      var close :- tokens.PopFront();
      if close.kind != RParen {
        return Err(ExpectedRParen(close));
      }
      return Ok(e);
    } else if t.kind == Number {
      return Ok(Lit(t.lexeme));
    } else if t.kind == Identifier {
      return Ok(Var(t.lexeme));
    } else {
      return Err(UnexpectedToken(t));
    }
  }

  /** `parse_term`: a factor, then a left fold over `* /` factors. */
  method ParseTerm(tokens: TokenStream) returns (r: Result<Expr>)
    modifies tokens
    ensures Parsed(r, tokens.items) == Term(old(tokens.items))
    decreases |tokens.items|, 2
  {
    var left :- ParseFactor(tokens);
    while tokens.items != [] && tokens.items[0].kind == Operator && tokens.items[0].lexeme in MultiplicativeOps
      invariant |tokens.items| <= |old(tokens.items)|
      invariant WellFormed(left)
      invariant TermTail(left, tokens.items) == Term(old(tokens.items))
      decreases |tokens.items|
    {
      var popped := tokens.PopFront();
      var op := popped.value;
      var right :- ParseFactor(tokens);
      left := Binary(op.lexeme, left, right);
    }
    return Ok(left);
  }

  /** `parse_expression`: a term, then a left fold over `+ - %` terms. */
  method ParseExpression(tokens: TokenStream) returns (r: Result<Expr>)
    modifies tokens
    ensures Parsed(r, tokens.items) == Expression(old(tokens.items))
    decreases |tokens.items|, 4
  {
    var left :- ParseTerm(tokens);
    while tokens.items != [] && tokens.items[0].kind == Operator && tokens.items[0].lexeme in AdditiveOps
      invariant |tokens.items| <= |old(tokens.items)|
      invariant WellFormed(left)
      invariant ExpressionTail(left, tokens.items) == Expression(old(tokens.items))
      decreases |tokens.items|
    {
      var popped := tokens.PopFront();
      var op := popped.value;
      var right :- ParseTerm(tokens);
      left := Binary(op.lexeme, left, right);
    }
    return Ok(left);
  }

  /** `parse_assignment` */
  method ParseAssignment(tokens: TokenStream) returns (r: Result<Assignment>)
    modifies tokens
    ensures Parsed(r, tokens.items) == Statement(old(tokens.items))
  {
    var dataType: Option<string> := None;
    if tokens.items != [] && tokens.items[0].kind == DataType {
      var popped := tokens.PopFront();
      dataType := Some(popped.value.lexeme);
    }
    var id :- tokens.PopFront();
    if id.kind != Identifier {
      return Err(ExpectedIdentifier(id));
    }
    var left := Var(id.lexeme);
    var eq :- tokens.PopFront();
    if eq.kind != Assign {
      return Err(ExpectedAssign(eq));
    }
    var right :- ParseExpression(tokens);
    return Ok(Assignment(dataType, left, right));
  }

  /** `parse`: an assignment, then only the end of input may remain. */
  method Parse(tokens: TokenStream) returns (r: Result<Assignment>)
    modifies tokens
    ensures Parsed(r, tokens.items) == Line(old(tokens.items))
  {
    var node :- ParseAssignment(tokens);
    if tokens.items != [] && tokens.items[0].kind != Eof {
      return Err(TrailingTokens(tokens.items));
    }
    return Ok(node);
  }
}
