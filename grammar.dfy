/** The recursive-descent grammar as functions over the token list. Each
    function takes the list as it is when the parser function is entered and
    gives the result together with the list left after its `pop(0)` calls,
    also when it fails, since the caller's list has been consumed that far.

      assignment := [DataType] Identifier '=' expression
      expression := term (('+' | '-' | '%') term)*
      term       := factor (('*' | '/') factor)*
      factor     := ('-' | '!' | '~') factor | '(' expression ')' | Number | Identifier
*/
module Grammar {
  import opened Syntax

  /** A result, and the token list left behind. */
  datatype Parsed<+T> = Parsed(result: Result<T>, rest: seq<Token>)

  /** `rest` is what remains of `ts` after removing tokens from its front. */
  predicate IsSuffix(rest: seq<Token>, ts: seq<Token>)
  {
    |rest| <= |ts| && rest == ts[|ts| - |rest|..]
  }

  /** A token list as the scanner makes it: it ends with an `Eof` token and
      has no other. */
  predicate WellTerminated(ts: seq<Token>)
  {
    |ts| >= 1 && ts[|ts| - 1].kind == Eof &&
    forall i :: 0 <= i < |ts| - 1 ==> ts[i].kind != Eof
  }

  /** The trees the parser builds: unary nodes carry `- ! ~`, binary nodes
      `+ - % * /`. */
  predicate WellFormed(e: Expr)
  {
    match e
    case Var(_) => true
    case Lit(_) => true
    case Unary(op, x) => op in UnaryOps && WellFormed(x)
    case Binary(op, l, r) => (op in AdditiveOps || op in MultiplicativeOps) && WellFormed(l) && WellFormed(r)
  }

  lemma SuffixTrans(r2: seq<Token>, r1: seq<Token>, ts: seq<Token>)
    requires IsSuffix(r2, r1) && IsSuffix(r1, ts)
    ensures IsSuffix(r2, ts)
  {
    assert r2 == ts[|ts| - |r2|..] by {
      forall i | 0 <= i < |r2|
        ensures r2[i] == ts[|ts| - |r2| + i]
      {
        assert r2[i] == r1[|r1| - |r2| + i];
      }
    }
  }

  /** A non-empty suffix of a well-terminated list is well terminated. */
  lemma SuffixWellTerminated(rest: seq<Token>, ts: seq<Token>)
    requires IsSuffix(rest, ts)
    ensures WellTerminated(ts) && rest != [] ==> WellTerminated(rest)
  {
    var d := |ts| - |rest|;
    assert forall i :: 0 <= i < |rest| ==> rest[i] == ts[d + i];
  }

  lemma DropFirst(ts: seq<Token>)
    requires ts != []
    ensures IsSuffix(ts[1..], ts)
    ensures WellTerminated(ts) && ts[0].kind != Eof ==> WellTerminated(ts[1..])
  {
    assert forall i :: 0 <= i < |ts| - 1 ==> ts[1..][i] == ts[i + 1];
  }

  /** The list after `n` calls of `pop(0)` that all found a token. */
  function Drop(ts: seq<Token>, n: nat): (r: seq<Token>)
    requires n <= |ts|
    ensures r == ts[n..] && IsSuffix(r, ts)
    ensures WellTerminated(ts) && n < |ts| ==> WellTerminated(r)
  {
    SuffixWellTerminated(ts[n..], ts);
    ts[n..]
  }

  /** `tokens.pop(0)`: the first token, or the IndexError of an empty list. */
  function Pop(ts: seq<Token>): (o: Parsed<Token>)
    ensures IsSuffix(o.rest, ts)
    ensures o.result.Ok? <==> ts != []
    ensures o.result.Ok? ==> o.result.value == ts[0] && |o.rest| == |ts| - 1
    ensures o.result.Err? ==> o.result.error == PopFromEmpty
  {
    if ts == [] then Parsed(Err(PopFromEmpty), ts) else Parsed(Ok(ts[0]), ts[1..])
  }

  /** A token `parse_factor` accepts in first position. */
  predicate StartsFactor(t: Token)
  {
    (t.kind == Operator && t.lexeme in UnaryOps) || t.kind == LParen || t.kind == Number || t.kind == Identifier
  }

  /** The `)` that `parse_factor` pops after a parenthesised expression `x`. */
  function CloseParen(x: Expr, ts: seq<Token>): (o: Parsed<Expr>)
    ensures IsSuffix(o.rest, ts)
    ensures o.result.Ok? <==> ts != [] && ts[0].kind == RParen
    ensures o.result.Ok? ==> o == Parsed(Ok(x), ts[1..])
    ensures ts != [] && ts[0].kind != RParen ==> o.result == Err(ExpectedRParen(ts[0]))
    ensures WellTerminated(ts) ==>
      o.result != Err(PopFromEmpty) && (o.result.Ok? ==> WellTerminated(o.rest))
    ensures o.result.Err? ==> !o.result.error.IllegalCharacter?
  {
    if ts == [] then Parsed(Err(PopFromEmpty), ts)
    else
      DropFirst(ts);
      if ts[0].kind != RParen then Parsed(Err(ExpectedRParen(ts[0])), ts[1..])
      else Parsed(Ok(x), ts[1..])
  }

  /** `parse_factor` */
  function Factor(ts: seq<Token>): (o: Parsed<Expr>)
    ensures IsSuffix(o.rest, ts)
    ensures o.result.Ok? ==> ts != [] && StartsFactor(ts[0])
    ensures ts != [] && !StartsFactor(ts[0]) ==> o == Parsed(Err(UnexpectedToken(ts[0])), ts[1..])
    ensures ts != [] && ts[0].kind == LParen && Expression(ts[1..]).result.Ok? ==>
      o == CloseParen(Expression(ts[1..]).result.value, Expression(ts[1..]).rest)
    ensures o.result.Ok? ==> |o.rest| < |ts| && WellFormed(o.result.value)
    ensures WellTerminated(ts) ==>
      o.result != Err(PopFromEmpty) && (o.result.Ok? ==> WellTerminated(o.rest))
    ensures o.result.Err? ==> !o.result.error.IllegalCharacter?
    decreases |ts|, 0
  {
    if ts == [] then Parsed(Err(PopFromEmpty), ts)
    else
      var t := ts[0];
      if t.kind == Operator && t.lexeme in UnaryOps then
        DropFirst(ts);
        var o := Factor(ts[1..]);
        SuffixTrans(o.rest, ts[1..], ts);
        match o.result
        case Ok(x) => Parsed(Ok(Unary(t.lexeme, x)), o.rest)
        case Err(e) => Parsed(Err(e), o.rest)
      else if t.kind == LParen then
        DropFirst(ts);
        var o := Expression(ts[1..]);
        SuffixTrans(o.rest, ts[1..], ts);
        match o.result
        case Err(e) => Parsed(Err(e), o.rest)
        case Ok(x) =>
          var c := CloseParen(x, o.rest);
          SuffixTrans(c.rest, o.rest, ts);
          SuffixWellTerminated(o.rest, ts);
          c
      else if t.kind == Number then Parsed(Ok(Lit(t.lexeme)), ts[1..])
      else if t.kind == Identifier then Parsed(Ok(Var(t.lexeme)), ts[1..])
      else Parsed(Err(UnexpectedToken(t)), ts[1..])
  }

  /** `parse_term` */
  function Term(ts: seq<Token>): (o: Parsed<Expr>)
    ensures IsSuffix(o.rest, ts)
    ensures o.result.Ok? ==> |o.rest| < |ts| && WellFormed(o.result.value)
    ensures o.result.Ok? ==> !StartsWithOp(o.rest, MultiplicativeOps)
    ensures WellTerminated(ts) ==>
      o.result != Err(PopFromEmpty) && (o.result.Ok? ==> WellTerminated(o.rest))
    ensures o.result.Err? ==> !o.result.error.IllegalCharacter?
    decreases |ts|, 2
  {
    var o := Factor(ts);
    match o.result
    case Err(e) => Parsed(Err(e), o.rest)
    case Ok(f) =>
      var o' := TermTail(f, o.rest);
      SuffixTrans(o'.rest, o.rest, ts);
      o'
  }

  /** The loop of `parse_term`: while the next token is `*` or `/`, fold it
      and the following factor into the running left operand. */
  function TermTail(left: Expr, ts: seq<Token>): (o: Parsed<Expr>)
    requires WellFormed(left)
    ensures IsSuffix(o.rest, ts)
    ensures o.result.Ok? ==> WellFormed(o.result.value) && !StartsWithOp(o.rest, MultiplicativeOps)
    ensures !StartsWithOp(ts, MultiplicativeOps) ==> o == Parsed(Ok(left), ts)
    ensures WellTerminated(ts) ==>
      o.result != Err(PopFromEmpty) && (o.result.Ok? ==> WellTerminated(o.rest))
    ensures o.result.Err? ==> !o.result.error.IllegalCharacter?
    decreases |ts|, 1
  {
    if StartsWithOp(ts, MultiplicativeOps) then
      DropFirst(ts);
      var o := Factor(ts[1..]);
      SuffixTrans(o.rest, ts[1..], ts);
      match o.result
      case Err(e) => Parsed(Err(e), o.rest)
      case Ok(right) =>
        var o' := TermTail(Binary(ts[0].lexeme, left, right), o.rest);
        SuffixTrans(o'.rest, o.rest, ts);
        o'
    else Parsed(Ok(left), ts)
  }

  /** `parse_expression` */
  function Expression(ts: seq<Token>): (o: Parsed<Expr>)
    ensures IsSuffix(o.rest, ts)
    ensures o.result.Ok? ==> |o.rest| < |ts| && WellFormed(o.result.value)
    ensures o.result.Ok? ==>
      !StartsWithOp(o.rest, AdditiveOps) && !StartsWithOp(o.rest, MultiplicativeOps)
    ensures WellTerminated(ts) ==>
      o.result != Err(PopFromEmpty) && (o.result.Ok? ==> WellTerminated(o.rest))
    ensures o.result.Err? ==> !o.result.error.IllegalCharacter?
    decreases |ts|, 4
  {
    var o := Term(ts);
    match o.result
    case Err(e) => Parsed(Err(e), o.rest)
    case Ok(t) =>
      var o' := ExpressionTail(t, o.rest);
      SuffixTrans(o'.rest, o.rest, ts);
      o'
  }

  /** The loop of `parse_expression`: while the next token is `+`, `-` or
      `%`, fold it and the following term into the running left operand. */
  function ExpressionTail(left: Expr, ts: seq<Token>): (o: Parsed<Expr>)
    requires WellFormed(left)
    ensures IsSuffix(o.rest, ts)
    ensures o.result.Ok? ==> WellFormed(o.result.value) && !StartsWithOp(o.rest, AdditiveOps)
    ensures o.result.Ok? && !StartsWithOp(ts, MultiplicativeOps) ==>
      !StartsWithOp(o.rest, MultiplicativeOps)
    ensures !StartsWithOp(ts, AdditiveOps) ==> o == Parsed(Ok(left), ts)
    ensures WellTerminated(ts) ==>
      o.result != Err(PopFromEmpty) && (o.result.Ok? ==> WellTerminated(o.rest))
    ensures o.result.Err? ==> !o.result.error.IllegalCharacter?
    decreases |ts|, 3
  {
    if StartsWithOp(ts, AdditiveOps) then
      DropFirst(ts);
      var o := Term(ts[1..]);
      SuffixTrans(o.rest, ts[1..], ts);
      match o.result
      case Err(e) => Parsed(Err(e), o.rest)
      case Ok(right) =>
        var o' := ExpressionTail(Binary(ts[0].lexeme, left, right), o.rest);
        SuffixTrans(o'.rest, o.rest, ts);
        o'
    else Parsed(Ok(left), ts)
  }

  /** Where `parse_assignment` expects the identifier: after the optional type. */
  function TargetIndex(ts: seq<Token>): (k: nat)
  {
    if ts != [] && ts[0].kind == DataType then 1 else 0
  }

  /** `parse_assignment` */
  function Statement(ts: seq<Token>): (o: Parsed<Assignment>)
    ensures IsSuffix(o.rest, ts)
    ensures var k := TargetIndex(ts);
      o.result.Ok? ==>
        var a := o.result.value;
        k + 2 < |ts| &&
        a.dataType == (if k == 1 then Some(ts[0].lexeme) else None) &&
        ts[k].kind == Identifier && a.left == Var(ts[k].lexeme) &&
        ts[k + 1].kind == Assign &&
        Expression(ts[k + 2..]) == Parsed(Ok(a.right), o.rest) &&
        WellFormed(a.right)
    ensures var k := TargetIndex(ts);
      k < |ts| && ts[k].kind != Identifier ==> o.result == Err(ExpectedIdentifier(ts[k]))
    ensures var k := TargetIndex(ts);
      k + 1 < |ts| && ts[k].kind == Identifier && ts[k + 1].kind != Assign ==>
        o.result == Err(ExpectedAssign(ts[k + 1]))
    ensures WellTerminated(ts) ==>
      o.result != Err(PopFromEmpty) && (o.result.Ok? ==> WellTerminated(o.rest))
    ensures o.result.Err? ==> !o.result.error.IllegalCharacter?
  {
    var k := TargetIndex(ts);
    var dataType := if k == 1 then Some(ts[0].lexeme) else None;
    if k == |ts| then Parsed(Err(PopFromEmpty), ts[k..])
    else if ts[k].kind != Identifier then Parsed(Err(ExpectedIdentifier(ts[k])), Drop(ts, k + 1))
    else if k + 1 == |ts| then Parsed(Err(PopFromEmpty), ts[k + 1..])
    else if ts[k + 1].kind != Assign then Parsed(Err(ExpectedAssign(ts[k + 1])), Drop(ts, k + 2))
    else
      var o := Expression(Drop(ts, k + 2));
      SuffixTrans(o.rest, ts[k + 2..], ts);
      match o.result
      case Err(e) => Parsed(Err(e), o.rest)
      case Ok(right) => Parsed(Ok(Assignment(dataType, Var(ts[k].lexeme), right)), o.rest)
  }

  /** `parse`: one assignment, and then nothing but the end of input. */
  function Line(ts: seq<Token>): (o: Parsed<Assignment>)
    ensures o.result.Ok? <==>
      Statement(ts).result.Ok? && (Statement(ts).rest == [] || Statement(ts).rest[0].kind == Eof)
    ensures o.result.Ok? ==> o.result == Statement(ts).result
    ensures Statement(ts).result.Err? ==> o.result == Statement(ts).result
    ensures Statement(ts).result.Ok? && Statement(ts).rest != [] && Statement(ts).rest[0].kind != Eof ==>
      o.result == Err(TrailingTokens(Statement(ts).rest))
    ensures WellTerminated(ts) ==>
      o.result != Err(PopFromEmpty) && (o.result.Ok? ==> o.rest == [ts[|ts| - 1]])
    ensures o.result.Err? ==> !o.result.error.IllegalCharacter?
  {
    var o := Statement(ts);
    assert o.result.Ok? && WellTerminated(ts) ==> o.rest[|o.rest| - 1] == ts[|ts| - 1];
    match o.result
    case Err(e) => o
    case Ok(a) =>
      if o.rest != [] && o.rest[0].kind != Eof then Parsed(Err(TrailingTokens(o.rest)), o.rest)
      else o
  }
}
