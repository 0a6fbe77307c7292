/**
 * Character classifiers of internal/util/util.go. Each is an ASCII range test
 * over a single rune; the lexer and the move decomposer both use them.
 */
module Chars {

  /** A file letter, `a` through `h`. */
  predicate IsFile(c: char) {
    'a' <= c <= 'h'
  }

  /** A rank digit, `1` through `8`. */
  predicate IsRank(c: char) {
    '1' <= c <= '8'
  }

  /** Space, tab or newline. Carriage return is deliberately not included. */
  predicate IsWhitespace(c: char) {
    c == ' ' || c == '\t' || c == '\n'
  }

  /** An ASCII letter. */
  predicate IsLetter(c: char) {
    'a' <= c <= 'z' || 'A' <= c <= 'Z'
  }

  /** An ASCII decimal digit. */
  predicate IsDigit(c: char) {
    '0' <= c <= '9'
  }

  /** The file letters, the rank digits and the blanks, listed one by one. */
  const FileLetters: set<char> := {'a', 'b', 'c', 'd', 'e', 'f', 'g', 'h'}
  const RankDigits: set<char> := {'1', '2', '3', '4', '5', '6', '7', '8'}

  /** The files are the eight letters listed; the neighbours of the range and upper case are not files. */
  lemma FileIsExactlyAToH(c: char)
    ensures IsFile(c) <==> c in FileLetters
    ensures !IsFile('`') && !IsFile('i') && !IsFile('A') && !IsFile('H')
  {
  }

  /** The ranks are the eight digits listed; `0`, `9` and letters are not ranks. */
  lemma RankIsExactlyOneToEight(c: char)
    ensures IsRank(c) <==> c in RankDigits
    ensures !IsRank('0') && !IsRank('9') && !IsRank('a')
  {
  }

  /**
   * Only space, tab and newline are blanks to the lexer: carriage return,
   * vertical tab, form feed and no-break space are not, nor are letters and digits.
   */
  lemma WhitespaceIsExactlyBlanks()
    ensures !IsWhitespace('\r') && !IsWhitespace(0x0B as char) && !IsWhitespace(0x0C as char) && !IsWhitespace(0xA0 as char)
    ensures !IsWhitespace('a') && !IsWhitespace('1')
  {
  }

  /** Both ends of each range are included and the characters just outside them are not. */
  lemma LetterAndDigitRanges()
    ensures IsLetter('a') && IsLetter('z') && IsLetter('A') && IsLetter('Z')
    ensures !IsLetter('`') && !IsLetter('{') && !IsLetter('@') && !IsLetter('[') && !IsLetter('5') && !IsLetter('*')
    ensures IsDigit('0') && IsDigit('9') && !IsDigit('/') && !IsDigit(':') && !IsDigit('a') && !IsDigit('Z') && !IsDigit('*')
  {
  }

  /** Files are letters, ranks are digits, and the three classes letter, digit, blank never overlap. */
  lemma ClassesNestAndAreDisjoint(c: char)
    ensures IsFile(c) ==> IsLetter(c)
    ensures IsRank(c) ==> IsDigit(c)
    ensures !(IsLetter(c) && IsDigit(c))
    ensures !(IsLetter(c) && IsWhitespace(c))
    ensures !(IsDigit(c) && IsWhitespace(c))
    ensures !(IsFile(c) && IsRank(c))
  {
  }
}
