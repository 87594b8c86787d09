# Syntax analyser for one-line assignments, in Dafny

This project models the front end in `SyntaxAnalyzer.py`. It turns one line
such as `int x = -(a + 2) * 3` into a syntax tree, in two stages.

- **Scanner (`tokenize`).** A cursor moves left to right over the text. At
  each cursor the eight rules of the rule table are tried in order: type
  keyword, identifier, number, operator, `=`, `(`, `)` and whitespace. The
  first rule that matches wins; this is first-match, not longest-match. Its
  text becomes a `(kind, lexeme)` token, except whitespace, which is
  skipped. A cursor where no rule matches raises "Illegal character at
  position p". A successful scan ends with the `(EOF, '')` sentinel.
- **Parser (`parse`, `parse_assignment`, `parse_expression`, `parse_term`,
  `parse_factor`).** A recursive-descent parser for
  `[type] identifier = expression`. It consumes the token list from the
  front with `pop(0)`. It has two left-associative binary levels,
  `+ - %` below `* /`. Unary `- ! ~` nest to the right. Parentheses group
  without leaving a node. Anything other than the sentinel left after the
  assignment is an error.

Modules:

- `Syntax` (`syntax.dfy`): tokens, the syntax tree, the error variants and the
  `Result` type.
- `Chars` (`chars.dfy`): the ASCII character classes behind `\d`, `\s`,
  `\w` and `\b`, and maximal runs.
- `Lexer` (`lexer.dfy`): the rule table and one matcher per rule. It
  specifies the scan as functions (`Scan`, `Lex`). It has the scanner loop
  itself as the method `Tokenize`, proved equal to `Lex`; its inner loop
  over the rule table is the method `MatchAt`.
- `LexerProps` (`lexer_props.dfy`): what the scanner guarantees. This covers
  the sentinel, coverage of the input, keyword versus identifier, exactly
  where the scan fails, and that `=`, `(` and `)` tokens carry their
  character.
- `Grammar` (`grammar.dfy`): each parse function as a function on the token
  list. It returns the result and the list left behind, also on failure.
- `Parser` (`parser.dfy`): the parse functions as the source runs them. They
  are methods that pop from one shared `TokenStream` object, and each is
  proved to agree with its `Grammar` function.
- `GrammarProps` (`grammar_props.dfy`): precedence and associativity,
  stated against an independent printer that puts in the fewest
  parentheses. Printing any tree and parsing it back gives the same tree.
- `ConcreteSyntax` (`concrete_syntax.dfy`): the grammar as written, with
  parentheses as a node of their own. Every line it derives, however
  parenthesised, is accepted and gives the tree with the parentheses
  dropped. Conversely, whatever the parser accepts is such a derivation
  followed by what it leaves.
- `FrontEnd` (`front_end.dfy`): `parse(tokenize(s))`. The parser never pops
  from an empty list when it is fed by the scanner, and every accepted line
  is, token for token, a derivation of the grammar.
- `Examples` (`examples.dfy`): worked lines, such as `5int`, `intx`,
  `x = 1 - 2 - 3` and the error cases.

Errors are one datatype for both stages, because the source raises
`SyntaxError` from both. The six `SyntaxError` sites become six variants.
Each carries the cursor position or the offending token instead of a
message. The `IndexError` of `pop(0)` on an empty list is the variant
`PopFromEmpty`. It is reachable only for token lists that the scanner
never produces (`FrontEnd.Analyze`).

## Model

| member | source | states |
|---|---|---|
| Lexer.RuleKind | SyntaxAnalyzer.py:14-23 | the token kind each rule emits; only the whitespace rule emits none, and no rule emits EOF |
| Lexer.KeywordFrom | SyntaxAnalyzer.py:15 | the keyword alternatives are tried in order; a match is a keyword spelt in letters and followed by a word boundary; no match means every alternative present at the cursor runs on into a word character |
| Lexer.KeywordMatch | SyntaxAnalyzer.py:15 | a type keyword with `\b` on both sides, where the leading `\b` looks at the character before the cursor; no match exactly when no keyword there is bounded on both sides |
| Lexer.IdentifierMatch | SyntaxAnalyzer.py:16 | matches exactly at a letter or `_`, and takes the maximal run of word characters |
| Lexer.NumberMatch | SyntaxAnalyzer.py:17 | matches exactly at a digit, or at a point followed by a digit; the lexeme is digits with at most one point; the match is maximal (no digit follows, and a following point only when the lexeme already has one) |
| Lexer.CharMatch | SyntaxAnalyzer.py:18-21 | the one-character rules match exactly their character and consume one character |
| Lexer.SpaceMatch | SyntaxAnalyzer.py:22 | matches exactly at whitespace and takes the maximal whitespace run |
| Lexer.MatchRule | SyntaxAnalyzer.py:14-23 | every match of every rule is non-empty, and only the whitespace rule consumes whitespace |
| Lexer.FirstMatchFrom | SyntaxAnalyzer.py:31-39 | the winning rule matches, and no rule before it in table order does; there is no winner exactly when no rule matches |
| Lexer.Scan | SyntaxAnalyzer.py:29-41 | the scan from a cursor fails only with an illegal character at or after that cursor |
| Lexer.Tokens | SyntaxAnalyzer.py:36-37 | the emitted tokens are at most the matches, and none has kind EOF |
| Lexer.LexFromStep | SyntaxAnalyzer.py:33-38 | one step of the scan emits the first match's token and continues from the end of the match |
| Lexer.MatchAt | SyntaxAnalyzer.py:31-39 | the loop over the rule table in order, stopping at the first rule that matches, returns exactly the first match at the cursor, or none |
| Lexer.EmitStep | SyntaxAnalyzer.py:34-38 | one round of the scanner loop appends the first match's token, unless it is whitespace, and moves the cursor past the match without changing the final result |
| Lexer.Tokenize | SyntaxAnalyzer.py:26-43 | the scanner loop with its inner loop over the rule table returns exactly `Lex(s)`: the tokens of the first-match walk followed by the sentinel, or the first position where no rule matches |
| Chars.RunEnd | SyntaxAnalyzer.py:16-17 | the end of the longest run of one character class: every character before it is in the class and the one at it is not |
| LexerProps.LexEndsWithEof | SyntaxAnalyzer.py:42 | a successful scan ends with exactly one `(EOF, '')` token and has no other EOF token |
| LexerProps.ScanCoversInput | SyntaxAnalyzer.py:29-39 | the matched texts, whitespace included, concatenate to the input from the cursor on; every match is non-empty, whitespace matches are all whitespace and token matches contain none |
| LexerProps.LexemesCoverInput | SyntaxAnalyzer.py:26-43 | the lexemes of the token list, concatenated, are the input with its whitespace removed |
| LexerProps.WordClassification | SyntaxAnalyzer.py:15-16 | at a letter or `_` the whole word run is taken; it is a DATATYPE token iff it spells a type keyword and no word character precedes it, otherwise one IDENTIFIER |
| LexerProps.KeywordMatchOfWord | SyntaxAnalyzer.py:15 | at a word start the keyword rule matches iff the whole word is a keyword and the preceding character is not a word character |
| LexerProps.NumberClassification | SyntaxAnalyzer.py:17 | at a digit, or a point followed by a digit, the number rule wins |
| LexerProps.NoRuleMatchesIff | SyntaxAnalyzer.py:31-41 | no rule matches at a cursor iff its character is none of: letter, `_`, digit, operator, `=`, parenthesis, whitespace, or a point followed by a digit |
| LexerProps.WalkThenScan | SyntaxAnalyzer.py:29-39 | after a walk of first matches the scan continues as the scan from where the walk ended |
| LexerProps.ScanIsAWalk | SyntaxAnalyzer.py:29-41 | a successful scan is a first-match walk to the end; a failed one is a walk to a cursor where no rule matches |
| LexerProps.LexSucceedsIffWalkToEnd | SyntaxAnalyzer.py:29-43 | the scan succeeds with exactly the matches of a walk that reaches the end, and emits their tokens and the sentinel |
| LexerProps.LexFailsIffStuck | SyntaxAnalyzer.py:40-41 | the scan fails at position q iff the walk reaches q and no rule matches there; nothing is skipped |
| LexerProps.LexTypesAreKeywords | SyntaxAnalyzer.py:15 | every DATATYPE token of a scanned line carries one of the five type keywords |
| LexerProps.LexIsSpelled | SyntaxAnalyzer.py:19-21 | every `=`, `(` and `)` token of a scanned line has that one character as its lexeme |
| LexerProps.LexErrorIsIllegalCharacter | SyntaxAnalyzer.py:40-41 | the scanner's only error is an illegal character inside the input where no rule can start |
| Grammar.Pop | SyntaxAnalyzer.py:107 | `pop(0)` gives the first token and the rest, or fails on an empty list |
| Grammar.CloseParen | SyntaxAnalyzer.py:117-120 | after a parenthesised expression the next token must be `)`, else "Expected ')'" names the token found |
| Grammar.Factor | SyntaxAnalyzer.py:105-128 | a factor starts with a unary operator, `(`, a number or an identifier; any other first token is "Unexpected token" after consuming it; `(` is closed by `CloseParen`; a result is a well-formed tree and consumes at least one token |
| Grammar.TermTail | SyntaxAnalyzer.py:98-101 | the `* /` loop stops at the first token that is not `*` or `/`, without consuming it, and never stops before one |
| Grammar.Term | SyntaxAnalyzer.py:93-103 | a term consumes at least one token and leaves no `*` or `/` at the front |
| Grammar.ExpressionTail | SyntaxAnalyzer.py:86-89 | the `+ - %` loop stops at the first token that is not `+`, `-` or `%`, without consuming it |
| Grammar.Expression | SyntaxAnalyzer.py:81-91 | an expression consumes at least one token and leaves no binary operator at the front; on a well-terminated list it never pops from an empty list |
| Grammar.Statement | SyntaxAnalyzer.py:53-78 | a successful assignment has the type entry iff the first token is DATATYPE, holding its lexeme; its target is the identifier that follows, then `=`, then the expression; a non-identifier there is "Expected identifier" and a non-`=` after it is "Expected '='" |
| Grammar.Line | SyntaxAnalyzer.py:45-52 | `parse` succeeds iff the assignment succeeds and the list is then empty or starts with EOF; otherwise "Unexpected tokens at the end" with the remaining tokens; on a well-terminated list a success leaves exactly the sentinel; the parser never reports an illegal character |
| Parser.TokenStream.PopFront | SyntaxAnalyzer.py:107 | removes the first token of the shared list in place and returns it, as `Grammar.Pop` |
| Parser.ParseFactor | SyntaxAnalyzer.py:105-128 | gives the result and leaves the list as `Grammar.Factor` |
| Parser.ParseTerm | SyntaxAnalyzer.py:93-103 | the loop gives the result and leaves the list as `Grammar.Term` |
| Parser.ParseExpression | SyntaxAnalyzer.py:81-91 | the loop gives the result and leaves the list as `Grammar.Expression` |
| Parser.ParseAssignment | SyntaxAnalyzer.py:53-78 | gives the result and leaves the list as `Grammar.Statement` |
| Parser.Parse | SyntaxAnalyzer.py:45-52 | gives the result and leaves the list as `Grammar.Line` |
| GrammarProps.FactorRoundTrip | SyntaxAnalyzer.py:105-128 | a printed factor parses back to itself whatever follows: unary operators nest to the right and leaves keep their lexeme |
| GrammarProps.ParenthesisedRoundTrip | SyntaxAnalyzer.py:115-120 | a binary node inside parentheses parses back to the node itself, with no wrapper |
| GrammarProps.MultiplicativeRoundTrip | SyntaxAnalyzer.py:98-101 | a printed `* /` node parses to the loop resumed with that node as its left operand |
| GrammarProps.TermRoundTrip | SyntaxAnalyzer.py:93-103 | a printed term parses to the `* /` loop resumed with that term, so `* /` fold to the left |
| GrammarProps.AdditiveRoundTrip | SyntaxAnalyzer.py:86-89 | a printed `+ - %` node parses to the loop resumed with that node as its left operand |
| GrammarProps.ExpressionRoundTrip | SyntaxAnalyzer.py:81-91 | a printed expression parses back to itself when no binary operator follows, so `+ - %` fold to the left below `* /` |
| GrammarProps.BinaryRoundTrip | SyntaxAnalyzer.py:81-103 | the tokens of any binary node parse back to that node |
| GrammarProps.MissingCloseParen | SyntaxAnalyzer.py:115-119 | a parenthesis left open reports the token after the inner expression where `)` was expected |
| GrammarProps.StatementRoundTrip | SyntaxAnalyzer.py:53-78 | the tokens of any assignment parse back to it, with the type entry exactly when the type token is there |
| GrammarProps.LineRoundTrip | SyntaxAnalyzer.py:45-78 | any assignment's tokens followed by the sentinel are accepted by `parse` and give that assignment |
| GrammarProps.Reparse | SyntaxAnalyzer.py:81-91 | whatever tree the expression parser returns, its canonical printing with the same rest parses to the same tree and leaves the same tokens |
| ConcreteSyntax.Abs | SyntaxAnalyzer.py:115-120 | the tree of a derivation of the grammar, with no node for parentheses, is well formed |
| ConcreteSyntax.FactorParses | SyntaxAnalyzer.py:105-128 | any factor as written, parenthesised or not, parses to its tree whatever follows it |
| ConcreteSyntax.ParenParses | SyntaxAnalyzer.py:115-120 | `(` expression `)` parses to the inner expression's tree whatever follows |
| ConcreteSyntax.TermParses | SyntaxAnalyzer.py:93-103 | any term as written parses to the `* /` loop resumed with its tree |
| ConcreteSyntax.ExpressionParses | SyntaxAnalyzer.py:81-91 | any expression as written parses to the `+ - %` loop resumed with its tree, and to exactly its tree when no binary operator follows |
| ConcreteSyntax.StatementParses | SyntaxAnalyzer.py:53-78 | any assignment line as written, with any parentheses, followed by the sentinel parses to its tree |
| ConcreteSyntax.LineParses | SyntaxAnalyzer.py:45-78 | any assignment line as written followed by the sentinel is accepted by `parse` and gives its tree |
| ConcreteSyntax.FactorDerivation | SyntaxAnalyzer.py:105-128 | the tokens a successful `parse_factor` consumed are a factor of the grammar whose tree is the result |
| ConcreteSyntax.TermTailDerivation | SyntaxAnalyzer.py:98-101 | the `* /` loop extends the running left operand's derivation by an operator and a factor per round |
| ConcreteSyntax.TermDerivation | SyntaxAnalyzer.py:93-103 | the tokens a successful `parse_term` consumed are a term of the grammar whose tree is the result |
| ConcreteSyntax.ExpressionTailDerivation | SyntaxAnalyzer.py:86-89 | the `+ - %` loop extends the running left operand's derivation by an operator and a term per round |
| ConcreteSyntax.ExpressionDerivation | SyntaxAnalyzer.py:81-91 | the tokens a successful `parse_expression` consumed are an expression of the grammar whose tree is the result |
| ConcreteSyntax.ExpressionIsDerived | SyntaxAnalyzer.py:81-128 | whatever `parse_expression` accepts is some expression of the grammar followed by what it leaves, with that expression's tree |
| ConcreteSyntax.StatementDerivation | SyntaxAnalyzer.py:53-78 | the tokens a successful `parse_assignment` consumed are an assignment line of the grammar whose tree is the result |
| ConcreteSyntax.LineIsDerived | SyntaxAnalyzer.py:45-128 | whatever `parse` accepts is some assignment line of the grammar followed by nothing or the sentinel, with that line's tree |
| FrontEnd.Analyze | SyntaxAnalyzerGUI.py:5-10 | `parse(tokenize(s))` never ends in the `IndexError` of `pop(0)`; it reports an illegal character exactly when the scanner fails, and then at a position inside the line where no rule can start; a tree assigns to an identifier and its type annotation, when present, is one of `int, float, string, char, bool` |
| FrontEnd.ScannedTokensAreWellTerminated | SyntaxAnalyzer.py:42-52 | a scanned list ends with its only EOF, so `parse` never pops from an empty list and a success leaves exactly the sentinel |
| FrontEnd.AnalyzeText | SyntaxAnalyzerGUI.py:5-10 | running the scanner loop and then the parser on the shared list gives `Analyze(s)`, never `PopFromEmpty`, and leaves only the sentinel after a success |
| FrontEnd.AcceptedLineIsDerived | SyntaxAnalyzerGUI.py:5-10 | every line `parse(tokenize(s))` accepts scans to an assignment line of the grammar, token for token, followed by the sentinel, and the tree is that line's |
| Examples.DigitThenKeyword | SyntaxAnalyzer.py:15-17 | `5int` lexes as NUMBER `5` then IDENTIFIER `int` |
| Examples.KeywordPrefix | SyntaxAnalyzer.py:15-16 | `intx` lexes as one IDENTIFIER |
| Examples.KeywordUnderscore | SyntaxAnalyzer.py:15-16 | `int_x` lexes as one IDENTIFIER |
| Examples.KeywordThenName | SyntaxAnalyzer.py:15-22 | `int x` lexes as DATATYPE, IDENTIFIER, EOF |
| Examples.IllegalDollar | SyntaxAnalyzer.py:40-41 | `x=$` fails with an illegal character at position 2, in the scanner and in `parse(tokenize(s))` |
| Examples.LeftAssociative | SyntaxAnalyzer.py:86-89 | the tokens of `x = 1 - 2 - 3` parse as `(1 - 2) - 3` |
| Examples.Precedence | SyntaxAnalyzer.py:81-103 | the tokens of `x = 1 + 2 * 3` parse as `1 + (2 * 3)` |
| Examples.UnaryChain | SyntaxAnalyzer.py:110-112 | the tokens of `x = --5` parse as `-(-5)` |
| Examples.Grouping | SyntaxAnalyzer.py:115-120 | the tokens of `x = (1 + 2) * 3` parse as `(1 + 2) * 3` with no node for the parentheses |
| Examples.TypedWithParentheses | SyntaxAnalyzer.py:53-128 | the tokens of `int x = -(1 % 2) / ~y` parse with type `int` and the tree `Binary("/", Unary("-", Binary("%", 1, 2)), Unary("~", y))` |
| Examples.Trailing | SyntaxAnalyzer.py:49-50 | the tokens of `x = 5 5` fail with the trailing tokens `5`, EOF |
| Examples.MissingOperand | SyntaxAnalyzer.py:127-128 | the tokens of `x =` fail with the EOF token as unexpected |
| Examples.NumberAsTarget | SyntaxAnalyzer.py:63-64 | the tokens of `5 = x` fail with "Expected identifier" |
| Examples.MissingEquals | SyntaxAnalyzer.py:69-70 | the tokens of `x 5` fail with "Expected '='" |
| Examples.UnclosedParenthesis | SyntaxAnalyzer.py:117-119 | the tokens of `x = (1` fail with EOF where `)` was expected |

## Left out

- The graphical front end in `SyntaxAnalyzerGUI.py`: the window, the event loop, the message boxes and the splitting of the text box into lines. Only its `analyzer` function, which is `parse(tokenize(s))`, is modelled (`FrontEnd.Analyze`).
- The general regular-expression engine and its recompilation of every pattern at every cursor. The eight fixed patterns are modelled as hand-written matchers.
- Unicode. `\d`, `\s` and `\w` (and so `\b`) are restricted to ASCII: digits `0-9`, whitespace codes 9-13 and 28-32, and letters, digits and `_`. A non-ASCII character matches no rule in the model, where Python's `str` patterns would treat, for example, a non-ASCII letter as a word character.
- The text of the error messages, including the printed token list of "Unexpected tokens at the end". Each error is a variant carrying the position or the token(s) the message names.
- The Python dictionaries of the tree. The optional `'Data Type'` key is an `Option` field, and `'type'` tags are datatype constructors.
- Recursion depth: Python's recursion limit on deeply nested input is not modelled.
- `ConcreteSyntax`: its soundness lemmas (`ExpressionIsDerived`, `LineIsDerived`) take token lists whose `=`, `(` and `)` tokens carry their character, because the parser looks only at the kind of those tokens. Scanned lists always do (`LexIsSpelled`).
- A text-level round trip (printing a tree to text and scanning it back). The printer round trip is stated on token lists, and the scanner is related to its text by `LexemesCoverInput`.
