/** The two stages run one after the other: the scanner's token list, with
    its end-of-input sentinel, is handed to the parser. */
module FrontEnd {
  import opened Syntax
  import opened Lexer
  import opened LexerProps
  import opened Grammar
  import opened Parser
  import opened ConcreteSyntax

  /** `parse(tokenize(s))`: the first `SyntaxError` raised, or the tree.
      An illegal character is reported only by the scanner, at a position
      inside the line where no rule can start; no line reaches the
      `IndexError` of `pop(0)`; a tree assigns to an identifier, and its
      type annotation, when present, is one of the type keywords. */
  function Analyze(s: string): (r: Result<Assignment>)
    ensures r != Err(PopFromEmpty)
    ensures (r.Err? && r.error.IllegalCharacter?) <==> Lex(s).Err?
    ensures r.Err? && r.error.IllegalCharacter? ==>
      r.error.position < |s| && !CanStartMatch(s, r.error.position)
    ensures r.Ok? ==> r.value.left.Var? && (r.value.dataType.Some? ==> r.value.dataType.value in Keywords)
  {
    match Lex(s)
    case Err(e) =>
      LexErrorIsIllegalCharacter(s);
      Err(e)
    case Ok(ts) =>
      ScannedTokensAreWellTerminated(s);
      LexTypesAreKeywords(s);
      Line(ts).result
  }

  /** A scanned token list ends with its sentinel and has no other, so the
      parser never pops from an empty list, and a successful parse leaves
      exactly the sentinel behind. */
  lemma ScannedTokensAreWellTerminated(s: string)
    requires Lex(s).Ok?
    ensures WellTerminated(Lex(s).value)
    ensures Line(Lex(s).value).result != Err(PopFromEmpty)
    ensures Line(Lex(s).value).result.Ok? ==> Line(Lex(s).value).rest == [EofToken]
  {
    LexEndsWithEof(s);
  }

  /** Every line the analyzer accepts is, token for token, an assignment of
      the grammar (with whatever parentheses it was written with) followed
      by the end of input, and the tree is that assignment's. */
  lemma AcceptedLineIsDerived(s: string)
    requires Analyze(s).Ok?
    ensures exists a: CAssignment ::
      IsExprC(a.right) && AbsAssignment(a) == Analyze(s).value && Lex(s).value == AssignToks(a) + [EofToken]
  {
    var ts := Lex(s).value;
    ScannedTokensAreWellTerminated(s);
    LexIsSpelled(s);
    LineStep(ts);
    var a := StatementDerivation(ts);
  }

  /** Both stages as the source runs them: the scanner loop, then the
      parser consuming the list in place. */
  method AnalyzeText(s: string) returns (r: Result<Assignment>, left: seq<Token>)
    ensures r == Analyze(s)
    ensures r != Err(PopFromEmpty)
    ensures r.Ok? ==> left == [EofToken]
  {
    var scanned := Tokenize(s);
    if scanned.Err? {
      return Err(scanned.error), [];
    }
    ScannedTokensAreWellTerminated(s);
    var tokens := new TokenStream(scanned.value);
    r := Parse(tokens);
    left := tokens.items;
  }
}
