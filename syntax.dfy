/** Values shared by the lexer and the parser of the one-line assignment
    language: token kinds, tokens, the errors both stages raise, and the
    abstract syntax tree the parser builds. */
module Syntax {

  datatype Option<+T> = None | Some(value: T)

  /** The token categories of the scanner. `Eof` is the end-of-input sentinel. */
  datatype Kind = Identifier | Number | Operator | Assign | LParen | RParen | DataType | Eof

  /** A `(kind, lexeme)` pair; the lexeme is the exact matched text ("" for `Eof`). */
  datatype Token = Token(kind: Kind, lexeme: string)

  const EofToken: Token := Token(Eof, "")

  /** The one-character tokens carry their character, as the scanner makes them. */
  predicate Spelled(t: Token)
  {
    (t.kind == Assign ==> t.lexeme == "=") &&
    (t.kind == LParen ==> t.lexeme == "(") &&
    (t.kind == RParen ==> t.lexeme == ")")
  }

  predicate AllSpelled(ts: seq<Token>)
  {
    forall i :: 0 <= i < |ts| ==> Spelled(ts[i])
  }

  /** Every failure of the front end. The source raises its built-in
      SyntaxError for all of them except `PopFromEmpty`, which is the
      IndexError that `list.pop(0)` raises on an empty token list. */
  datatype Error =
    | IllegalCharacter(position: nat)
    | ExpectedIdentifier(found: Token)
    | ExpectedAssign(found: Token)
    | ExpectedRParen(found: Token)
    | UnexpectedToken(found: Token)
    | TrailingTokens(remaining: seq<Token>)
    | PopFromEmpty

  datatype Result<+T> = Ok(value: T) | Err(error: Error) {
    predicate IsFailure() { Err? }

    function PropagateFailure<U>(): Result<U>
      requires Err?
    {
      Err(error)
    }

    function Extract(): T
      requires Ok?
    {
      value
    }
  }

  /** Expression nodes: 'Identifier', 'Number', 'UnaryOperation' and
      'BinaryOperation'. Leaves keep the raw lexeme; operators are the
      operator lexemes. */
  datatype Expr =
    | Var(name: string)
    | Lit(value: string)
    | Unary(op: string, operand: Expr)
    | Binary(op: string, left: Expr, right: Expr)

  /** The 'Assignment' node; `dataType` is the optional 'Data Type' entry,
      `left` the 'Identifier' node and `right` the assigned expression. */
  datatype Assignment = Assignment(dataType: Option<string>, left: Expr, right: Expr)

  const UnaryOps: set<string> := {"-", "!", "~"}
  const AdditiveOps: set<string> := {"+", "-", "%"}
  const MultiplicativeOps: set<string> := {"*", "/"}

  /** The first token of `ts` is an operator token whose lexeme is in `ops`. */
  predicate StartsWithOp(ts: seq<Token>, ops: set<string>)
  {
    ts != [] && ts[0].kind == Operator && ts[0].lexeme in ops
  }
}
