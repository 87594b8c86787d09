/** The character classes the scanner's patterns use, restricted to ASCII. */
module Chars {

  predicate IsLetter(c: char)
  {
    'a' <= c <= 'z' || 'A' <= c <= 'Z'
  }

  /** `\d` */
  predicate IsDigit(c: char)
  {
    '0' <= c <= '9'
  }

  /** `[a-zA-Z_]`: a character that may start an identifier. */
  predicate IsWordStart(c: char)
  {
    IsLetter(c) || c == '_'
  }

  /** `\w`, the class `\b` is defined by. */
  predicate IsWordChar(c: char)
  {
    IsLetter(c) || IsDigit(c) || c == '_'
  }

  /** `\s`: tab, line feed, vertical tab, form feed, carriage return, the four
      information separators 0x1C..0x1F, and space. */
  predicate IsSpace(c: char)
  {
    9 <= c as int <= 13 || 28 <= c as int <= 32
  }

  // The operator class [+\-*/%~!].
  predicate IsOperatorChar(c: char)
  {
    c in "+-*/%~!"
  }

  /** The three classes whose maximal runs the scanner takes. */
  datatype CharClass = WordClass | DigitClass | SpaceClass

  predicate InClass(cls: CharClass, c: char)
  {
    match cls
    case WordClass => IsWordChar(c)
    case DigitClass => IsDigit(c)
    case SpaceClass => IsSpace(c)
  }

  /** The end of the longest run of `cls` characters starting at `i`. */
  function RunEnd(s: string, i: nat, cls: CharClass): (e: nat)
    requires i <= |s|
    ensures i <= e <= |s|
    ensures forall k :: i <= k < e ==> InClass(cls, s[k])
    ensures e == |s| || !InClass(cls, s[e])
    decreases |s| - i
  {
    if i < |s| && InClass(cls, s[i]) then RunEnd(s, i + 1, cls) else i
  }

  /** The character at `i` is a word character (false outside the string). */
  predicate WordAt(s: string, i: int)
  {
    0 <= i < |s| && IsWordChar(s[i])
  }

  /** `\b` at position `q`: exactly one of the characters around `q` is a word character. */
  predicate BoundaryAt(s: string, q: int)
  {
    WordAt(s, q - 1) != WordAt(s, q)
  }
}
