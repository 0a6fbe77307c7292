/**
 * The lexer of scanner.go. The Go scanner pulls runes from a reader and can
 * push one back; here the input is a string and the reader's position is an
 * index into it, so `read` is "look at s[i] and move on" and `unread` is
 * "do not move on". The Go scanner's end-of-input rune is NUL: `read`
 * returns the same rune for a NUL character as at the end of the input, but
 * a NUL is consumed, so a scan that stops at one goes on after it.
 */
module Scanner {
  import opened Results
  import opened Chars
  import opened Decimal
  import opened Tokens

  const Nul: char := '\0'

  /** The characters scanIdent keeps after the first one. */
  predicate IsIdentChar(c: char) {
    IsLetter(c) || IsDigit(c) || c == '_' || c == '+' || c == '#' || c == 'x' || c == '=' || c == '-'
  }

  predicate AllIdentChars(s: string) {
    forall k :: 0 <= k < |s| ==> IsIdentChar(s[k])
  }

  /** The characters Scan maps to a token of their own or to a scanning routine. */
  const Punctuation: set<char> := {'[', ']', '(', ')', '"', '.', '*', '{', ';', '$'}

  /** A character that Scan turns into an ILLEGAL token. */
  predicate IsIllegalChar(c: char) {
    !IsWhitespace(c) && !IsLetter(c) && !IsDigit(c) && c != Nul && c !in Punctuation
  }

  /** The end of the longest run of characters satisfying p that starts at i. */
  function SpanWhile(s: string, i: nat, p: char -> bool): (k: nat)
    requires i <= |s|
    ensures i <= k <= |s|
    ensures forall j :: i <= j < k ==> p(s[j])
    ensures k < |s| ==> !p(s[k])
    decreases |s| - i
  {
    if i < |s| && p(s[i]) then SpanWhile(s, i + 1, p) else i
  }

  /**
   * Where reading resumes after a loop stopped at e on seeing end of input:
   * a NUL at e was read as end of input and, like it, is not pushed back.
   */
  function PastNul(s: string, e: nat): nat
    requires e <= |s|
  {
    if e < |s| && s[e] == Nul then e + 1 else e
  }

  /** scanWhitespace: the position after a run of blanks (and after a NUL that ends it). */
  function WhitespaceEnd(s: string, i: nat): (k: nat)
    requires i < |s| && IsWhitespace(s[i])
    ensures i < k <= |s|
  {
    PastNul(s, SpanWhile(s, i, IsWhitespace))
  }

  /** scanIdent: the maximal identifier run, classified NUMBER when Atoi accepts it. */
  function ScanIdent(s: string, i: nat): (r: (Token, nat))
    requires i < |s| && (IsLetter(s[i]) || IsDigit(s[i]))
    ensures (r.0.kind == Ident || r.0.kind == Number) && i < r.1 <= |s|
    ensures var e := i + |r.0.literal|;
            e <= |s| && s[i..e] == r.0.literal && (e == |s| || !IsIdentChar(s[e]))
  {
    var e := SpanWhile(s, i, IsIdentChar);
    var lit := s[i..e];
    (Token(if Atoi(lit).Some? then Number else Ident, lit), PastNul(s, e))
  }

  /**
   * scanString, scanCommentBlock and scanCommentLine: the text from i up to
   * the closing character or a NUL, both of which are consumed and dropped.
   */
  function ScanDelimited(s: string, i: nat, close: char, kind: TokenKind): (r: (Token, nat))
    requires i <= |s| && close != Nul
    ensures r.0.kind == kind && i <= r.1 <= |s|
    ensures var e := i + |r.0.literal|;
            e <= |s| && s[i..e] == r.0.literal && (e == |s| || s[e] == close || s[e] == Nul)
            && r.1 == (if e < |s| then e + 1 else e)
    ensures forall k :: 0 <= k < |r.0.literal| ==> r.0.literal[k] != close && r.0.literal[k] != Nul
  {
    var e := SpanWhile(s, i, c => c != close && c != Nul);
    (Token(kind, s[i..e]), if e < |s| then e + 1 else e)
  }

  /** scanNAG: the digit run after `$`; the character that ends it is pushed back. */
  function ScanNag(s: string, i: nat): (r: (Token, nat))
    requires i <= |s|
    ensures r.0.kind == Nag && r.1 == i + |r.0.literal| <= |s|
    ensures s[i..r.1] == r.0.literal && (r.1 == |s| || !IsDigit(s[r.1]))
  {
    var e := SpanWhile(s, i, IsDigit);
    (Token(Nag, s[i..e]), e)
  }

  /** The shapes of token Scan can return, apart from EOF. */
  predicate Lexable(t: Token) {
    var lit := t.literal;
    match t.kind
    case Eof => false
    case Ident => |lit| > 0 && (IsLetter(lit[0]) || IsDigit(lit[0])) && AllIdentChars(lit) && Atoi(lit).None?
    case Number => |lit| > 0 && AllDigits(lit) && DigitsValue(lit) <= MaxInt64
    case Str => forall k :: 0 <= k < |lit| ==> lit[k] != '"' && lit[k] != Nul
    case Comment =>
      (forall k :: 0 <= k < |lit| ==> lit[k] != Nul)
      && ((forall k :: 0 <= k < |lit| ==> lit[k] != '}') || (forall k :: 0 <= k < |lit| ==> lit[k] != '\n'))
    case Nag => AllDigits(lit)
    case LBracket => lit == "["
    case RBracket => lit == "]"
    case LParen => lit == "("
    case RParen => lit == ")"
    case Dot => lit == "."
    case Asterisk => lit == "*"
    case Illegal => |lit| == 1 && IsIllegalChar(lit[0])
  }

  /** Every token of ts has a shape Scan produces. */
  predicate AllLexable(ts: seq<Token>) {
    forall k :: 0 <= k < |ts| ==> Lexable(ts[k])
  }

  /** Scan at a position that does not hold a blank: the switch of Scan. */
  function ScanNonBlank(s: string, i: nat): (r: (Token, nat))
    requires i <= |s|
    requires i == |s| || !IsWhitespace(s[i])
    ensures r.0.kind != Eof ==> i < r.1 <= |s|
    ensures r.0.kind == Eof <==> i == |s| || s[i] == Nul
    ensures r.0.kind == Eof ==> r.0 == EofToken && r.1 == (if i == |s| then i else i + 1)
  {
    if i == |s| then (EofToken, i)
    else
      var c := s[i];
      if IsLetter(c) || IsDigit(c) then ScanIdent(s, i)
      else if c == Nul then (EofToken, i + 1)
      else if c == '[' then (Token(LBracket, "["), i + 1)
      else if c == ']' then (Token(RBracket, "]"), i + 1)
      else if c == '(' then (Token(LParen, "("), i + 1)
      else if c == ')' then (Token(RParen, ")"), i + 1)
      else if c == '"' then ScanDelimited(s, i + 1, '"', Str)
      else if c == '.' then (Token(Dot, "."), i + 1)
      else if c == '*' then (Token(Asterisk, "*"), i + 1)
      else if c == '{' then ScanDelimited(s, i + 1, '}', Comment)
      else if c == ';' then ScanDelimited(s, i + 1, '\n', Comment)
      else if c == '$' then ScanNag(s, i + 1)
      else (Token(Illegal, [c]), i + 1)
  }

  /** Scan: skip blanks (recursively, as scanWhitespace does), then read one token. */
  function Scan(s: string, i: nat): (r: (Token, nat))
    requires i <= |s|
    ensures i <= r.1 <= |s|
    ensures r.0.kind != Eof ==> i < r.1
    ensures r.0.kind == Eof ==> r.0 == EofToken
    decreases |s| - i
  {
    if i < |s| && IsWhitespace(s[i]) then Scan(s, WhitespaceEnd(s, i)) else ScanNonBlank(s, i)
  }

  /** All tokens of s up to and including the first EOF, as the parser pulls them. */
  function TokenizeFrom(s: string, i: nat): (ts: seq<Token>)
    requires i <= |s|
    ensures |ts| > 0 && ts[|ts| - 1] == EofToken
    decreases |s| - i
  {
    var (t, j) := Scan(s, i);
    if t.kind == Eof then [t] else [t] + TokenizeFrom(s, j)
  }

  function Tokenize(s: string): (ts: seq<Token>)
    ensures |ts| > 0 && ts[|ts| - 1] == EofToken
  {
    TokenizeFrom(s, 0)
  }

  /** The token sequence ends at the first EOF: no token before the last one is an EOF. */
  lemma {:induction false} TokenizeFromStopsAtFirstEof(s: string, i: nat)
    requires i <= |s|
    ensures forall k :: 0 <= k < |TokenizeFrom(s, i)| - 1 ==> TokenizeFrom(s, i)[k].kind != Eof
    decreases |s| - i
  {
    var (t, j) := Scan(s, i);
    if t.kind != Eof {
      TokenizeFromStopsAtFirstEof(s, j);
    }
  }

  /** ScanIdent yields an identifier or a number of the shape Lexable describes. */
  lemma ScanIdentLexable(s: string, i: nat)
    requires i < |s| && (IsLetter(s[i]) || IsDigit(s[i]))
    ensures Lexable(ScanIdent(s, i).0)
  {
    var lit := ScanIdent(s, i).0.literal;
    assert lit[0] == s[i];
    if Atoi(lit).Some? {
      assert AllDigits(lit);
    }
  }

  /** Every token Scan returns, apart from EOF, has one of the shapes Lexable lists. */
  lemma ScanNonBlankLexable(s: string, i: nat)
    requires i <= |s|
    requires i == |s| || !IsWhitespace(s[i])
    ensures ScanNonBlank(s, i).0.kind != Eof ==> Lexable(ScanNonBlank(s, i).0)
  {
    if i < |s| && (IsLetter(s[i]) || IsDigit(s[i])) {
      ScanIdentLexable(s, i);
    }
  }

  lemma {:induction false} ScanLexable(s: string, i: nat)
    requires i <= |s|
    ensures Scan(s, i).0.kind != Eof ==> Lexable(Scan(s, i).0)
    decreases |s| - i
  {
    if i < |s| && IsWhitespace(s[i]) {
      ScanLexable(s, WhitespaceEnd(s, i));
    } else {
      ScanNonBlankLexable(s, i);
    }
  }

  /** Every token Tokenize returns before the final EOF has a shape Scan can produce. */
  lemma {:induction false} TokenizeFromLexable(s: string, i: nat)
    requires i <= |s|
    ensures AllLexable(TokenizeFrom(s, i)[..|TokenizeFrom(s, i)| - 1])
    decreases |s| - i
  {
    var (t, j) := Scan(s, i);
    ScanLexable(s, i);
    if t.kind != Eof {
      TokenizeFromLexable(s, j);
      var rest := TokenizeFrom(s, j);
      assert TokenizeFrom(s, i)[..|TokenizeFrom(s, i)| - 1] == [t] + rest[..|rest| - 1];
    }
  }

  /** Blanks before a token are skipped: the token Scan returns is the one at the first non-blank. */
  lemma ScanSkipsBlanks(s: string, i: nat, j: nat)
    requires i <= j <= |s|
    requires forall k :: i <= k < j ==> IsWhitespace(s[k])
    requires j == |s| || (!IsWhitespace(s[j]) && s[j] != Nul)
    ensures Scan(s, i) == ScanNonBlank(s, j)
  {
    if i < j {
      assert WhitespaceEnd(s, i) == j;
    }
  }

  /**
   * What a token's literal is, read off the input: an identifier is the
   * longest run of identifier characters; a string runs to the next quote,
   * NUL or end of input; a NAG is the longest digit run after `$`.
   */
  lemma ScanLiteralsAreMaximalRuns(s: string, i: nat)
    requires i <= |s|
    requires i == |s| || !IsWhitespace(s[i])
    ensures var (t, _) := ScanNonBlank(s, i);
            (t.kind == Ident || t.kind == Number ==>
               var e := i + |t.literal|;
               e <= |s| && s[i..e] == t.literal && (e == |s| || !IsIdentChar(s[e])))
            && (t.kind == Str ==>
               var e := i + 1 + |t.literal|;
               s[i] == '"' && e <= |s| && s[i + 1..e] == t.literal && (e == |s| || s[e] == '"' || s[e] == Nul))
            && (t.kind == Nag ==>
               var e := i + 1 + |t.literal|;
               s[i] == '$' && e <= |s| && s[i + 1..e] == t.literal && (e == |s| || !IsDigit(s[e])))
  {
    IdentLiteralIsRun(s, i);
    StringLiteralIsRun(s, i);
    NagLiteralIsRun(s, i);
  }

  lemma IdentLiteralIsRun(s: string, i: nat)
    requires i <= |s|
    requires i == |s| || !IsWhitespace(s[i])
    ensures var t := ScanNonBlank(s, i).0;
            t.kind == Ident || t.kind == Number ==>
              var e := i + |t.literal|;
              e <= |s| && s[i..e] == t.literal && (e == |s| || !IsIdentChar(s[e]))
  {
  }

  lemma StringLiteralIsRun(s: string, i: nat)
    requires i <= |s|
    requires i == |s| || !IsWhitespace(s[i])
    ensures var t := ScanNonBlank(s, i).0;
            t.kind == Str ==>
              var e := i + 1 + |t.literal|;
              s[i] == '"' && e <= |s| && s[i + 1..e] == t.literal && (e == |s| || s[e] == '"' || s[e] == Nul)
  {
  }

  lemma NagLiteralIsRun(s: string, i: nat)
    requires i <= |s|
    requires i == |s| || !IsWhitespace(s[i])
    ensures var t := ScanNonBlank(s, i).0;
            t.kind == Nag ==>
              var e := i + 1 + |t.literal|;
              s[i] == '$' && e <= |s| && s[i + 1..e] == t.literal && (e == |s| || !IsDigit(s[e]))
  {
  }

  /** End of input yields EOF without moving, so every later call yields EOF again; a NUL also reads as EOF. */
  lemma EndOfInputIsSticky(s: string, i: nat)
    requires i <= |s|
    ensures Scan(s, |s|) == (EofToken, |s|)
    ensures i < |s| && s[i] == Nul ==> Scan(s, i) == (EofToken, i + 1)
  {
  }

  /** The lexer cannot deliver the draw marker `1/2-1/2` as one identifier, since `/` ends an identifier. */
  lemma DrawMarkerIsNeverOneIdent(s: string, i: nat)
    requires i <= |s|
    ensures !(Scan(s, i).0.kind == Ident && Scan(s, i).0.literal == "1/2-1/2")
  {
    var t := Scan(s, i).0;
    ScanLexable(s, i);
    if t.kind == Ident {
      assert !IsIdentChar("1/2-1/2"[1]);
    }
  }

  /** Source text that lexes back to the token t. */
  function TokenText(t: Token): (text: string)
    ensures Lexable(t) ==> |text| > 0 && !IsWhitespace(text[0]) && text[0] != Nul
  {
    var lit := t.literal;
    match t.kind
    case Str => "\"" + lit + "\""
    case Comment => if forall k :: 0 <= k < |lit| ==> lit[k] != '}' then "{" + lit + "}" else ";" + lit
    case Nag => "$" + lit
    case _ => lit
  }

  /** A comment written in the `;` form, which also consumes the newline that ends it. */
  predicate IsLineComment(t: Token)
    requires Lexable(t)
  {
    t.kind == Comment && !(forall k :: 0 <= k < |t.literal| ==> t.literal[k] != '}')
  }

  /** An identifier run ended by a non-identifier character is read whole. */
  lemma ScanIdentReadsRun(s: string, i: nat, lit: string)
    requires |lit| > 0 && (IsLetter(lit[0]) || IsDigit(lit[0])) && AllIdentChars(lit)
    requires i + |lit| < |s| && s[i..i + |lit|] == lit && !IsIdentChar(s[i + |lit|]) && s[i + |lit|] != Nul
    ensures ScanIdent(s, i) == (Token(if Atoi(lit).Some? then Number else Ident, lit), i + |lit|)
  {
    assert s[i] == lit[0];
    assert forall k :: i <= k < i + |lit| ==> s[k] == lit[k - i];
    assert SpanWhile(s, i, IsIdentChar) == i + |lit|;
  }

  /** Delimited text without the closing character or NUL is read up to the closing character, which is consumed. */
  lemma ScanDelimitedReadsBody(s: string, j: nat, close: char, kind: TokenKind, lit: string)
    requires close != Nul
    requires forall k :: 0 <= k < |lit| ==> lit[k] != close && lit[k] != Nul
    requires j + |lit| < |s| && s[j..j + |lit|] == lit && s[j + |lit|] == close
    ensures ScanDelimited(s, j, close, kind) == (Token(kind, lit), j + |lit| + 1)
  {
    var r := ScanDelimited(s, j, close, kind);
    var got := r.0.literal;
    assert forall k :: j <= k < j + |lit| ==> s[k] == lit[k - j];
    assert |got| == |lit|;
  }

  /** A digit run after `$` ended by a non-digit is read whole. */
  lemma ScanNagReadsDigits(s: string, j: nat, lit: string)
    requires AllDigits(lit)
    requires j + |lit| < |s| && s[j..j + |lit|] == lit && !IsDigit(s[j + |lit|])
    ensures ScanNag(s, j) == (Token(Nag, lit), j + |lit|)
  {
    assert forall k :: j <= k < j + |lit| ==> s[k] == lit[k - j];
    assert SpanWhile(s, j, IsDigit) == j + |lit|;
  }

  /** Atoi accepts exactly the NUMBER literals among identifier runs. */
  lemma AtoiOnNumberLiteral(lit: string)
    requires |lit| > 0 && AllDigits(lit) && DigitsValue(lit) <= MaxInt64
    ensures Atoi(lit) == Some(DigitsValue(lit))
  {
  }

  /** The text of a token other than an identifier, number, string, comment or NAG is its literal, one character long. */
  lemma ScanReadsSingleChar(s: string, i: nat, t: Token)
    requires Lexable(t) && t.kind !in {Ident, Number, Str, Comment, Nag}
    requires i < |s| && s[i] == t.literal[0]
    ensures ScanNonBlank(s, i) == (t, i + 1)
  {
    assert t.literal == [t.literal[0]];
  }

  lemma ScanReadsWordText(s: string, i: nat, t: Token)
    requires Lexable(t) && (t.kind == Ident || t.kind == Number)
    requires i + |t.literal| < |s|
    requires s[i..i + |t.literal|] == t.literal && s[i + |t.literal|] == '\n'
    ensures ScanNonBlank(s, i) == (t, i + |t.literal|)
  {
    assert s[i] == t.literal[0];
    if t.kind == Number {
      AtoiOnNumberLiteral(t.literal);
    }
    ScanIdentReadsRun(s, i, t.literal);
  }

  /** The three pieces of a text a + b + c found at position i of s. */
  lemma SliceOfConcat(s: string, i: nat, a: string, b: string, c: string)
    requires i + |a| + |b| + |c| <= |s| && s[i..i + |a| + |b| + |c|] == a + b + c
    ensures s[i..i + |a|] == a
    ensures s[i + |a|..i + |a| + |b|] == b
    ensures s[i + |a| + |b|..i + |a| + |b| + |c|] == c
  {
    var w := s[i..i + |a| + |b| + |c|];
    assert s[i..i + |a|] == w[..|a|] == (a + b + c)[..|a|];
    assert (a + b + c)[|a|..|a| + |b|] == (a + b)[|a|..] == b;
    var u, v := s[i + |a|..i + |a| + |b|], w[|a|..|a| + |b|];
    forall k | 0 <= k < |b|
      ensures u[k] == v[k]
    {
      assert s[i + |a| + k] == w[|a| + k];
    }
    assert u == v;
    assert s[i + |a| + |b|..i + |a| + |b| + |c|] == w[|a| + |b|..] == (a + b + c)[|a| + |b|..];
  }

  lemma ScanReadsStringText(s: string, i: nat, lit: string)
    requires Lexable(Token(Str, lit))
    requires i + |lit| + 2 < |s| && s[i..i + |lit| + 2] == "\"" + lit + "\"" && s[i + |lit| + 2] == '\n'
    ensures ScanNonBlank(s, i) == (Token(Str, lit), i + |lit| + 2)
  {
    SliceOfConcat(s, i, "\"", lit, "\"");
    assert s[i] == s[i..i + 1][0] && s[i + 1 + |lit|] == s[i + 1 + |lit|..i + 2 + |lit|][0];
    ScanDelimitedReadsBody(s, i + 1, '"', Str, lit);
  }

  lemma ScanReadsBraceCommentText(s: string, i: nat, lit: string)
    requires Lexable(Token(Comment, lit)) && forall k :: 0 <= k < |lit| ==> lit[k] != '}'
    requires i + |lit| + 2 < |s| && s[i..i + |lit| + 2] == "{" + lit + "}" && s[i + |lit| + 2] == '\n'
    ensures ScanNonBlank(s, i) == (Token(Comment, lit), i + |lit| + 2)
  {
    SliceOfConcat(s, i, "{", lit, "}");
    assert s[i] == s[i..i + 1][0] && s[i + 1 + |lit|] == s[i + 1 + |lit|..i + 2 + |lit|][0];
    ScanDelimitedReadsBody(s, i + 1, '}', Comment, lit);
  }

  lemma ScanReadsLineCommentText(s: string, i: nat, lit: string)
    requires Lexable(Token(Comment, lit)) && forall k :: 0 <= k < |lit| ==> lit[k] != '\n'
    requires i + |lit| + 1 < |s| && s[i..i + |lit| + 1] == ";" + lit && s[i + |lit| + 1] == '\n'
    ensures ScanNonBlank(s, i) == (Token(Comment, lit), i + |lit| + 2)
  {
    SliceOfConcat(s, i, ";", lit, "");
    assert s[i] == s[i..i + 1][0];
    ScanDelimitedReadsBody(s, i + 1, '\n', Comment, lit);
  }

  lemma ScanReadsNagText(s: string, i: nat, lit: string)
    requires Lexable(Token(Nag, lit))
    requires i + |lit| + 1 < |s| && s[i..i + |lit| + 1] == "$" + lit && s[i + |lit| + 1] == '\n'
    ensures ScanNonBlank(s, i) == (Token(Nag, lit), i + |lit| + 1)
  {
    SliceOfConcat(s, i, "$", lit, "");
    assert s[i] == s[i..i + 1][0];
    ScanNagReadsDigits(s, i + 1, lit);
  }

  lemma ScanReadsQuotedText(s: string, i: nat, t: Token)
    requires Lexable(t) && (t.kind == Str || t.kind == Comment || t.kind == Nag)
    requires i + |TokenText(t)| < |s|
    requires s[i..i + |TokenText(t)|] == TokenText(t) && s[i + |TokenText(t)|] == '\n'
    ensures ScanNonBlank(s, i) == (t, i + |TokenText(t)| + if IsLineComment(t) then 1 else 0)
  {
    var lit := t.literal;
    if t.kind == Str {
      ScanReadsStringText(s, i, lit);
    } else if t.kind == Nag {
      ScanReadsNagText(s, i, lit);
    } else if IsLineComment(t) {
      ScanReadsLineCommentText(s, i, lit);
    } else {
      ScanReadsBraceCommentText(s, i, lit);
    }
  }

  /** A token text followed by a newline is read back as that very token. */
  lemma ScanReadsTokenText(s: string, i: nat, t: Token)
    requires Lexable(t)
    requires i + |TokenText(t)| < |s|
    requires s[i..i + |TokenText(t)|] == TokenText(t) && s[i + |TokenText(t)|] == '\n'
    ensures ScanNonBlank(s, i) == (t, i + |TokenText(t)| + if IsLineComment(t) then 1 else 0)
  {
    if t.kind == Ident || t.kind == Number {
      ScanReadsWordText(s, i, t);
    } else if t.kind == Str || t.kind == Comment || t.kind == Nag {
      ScanReadsQuotedText(s, i, t);
    } else {
      assert s[i] == TokenText(t)[0];
      ScanReadsSingleChar(s, i, t);
    }
  }

  /** Text for a token sequence: each token's text followed by a newline. */
  function Render(ts: seq<Token>): string
    requires AllLexable(ts)
  {
    if ts == [] then "" else TokenText(ts[0]) + "\n" + Render(ts[1..])
  }

  lemma TokenizeFromUnfolds(s: string, i: nat)
    requires i <= |s| && Scan(s, i).0.kind != Eof
    ensures TokenizeFrom(s, i) == [Scan(s, i).0] + TokenizeFrom(s, Scan(s, i).1)
  {
  }

  /** TokenizeFrom depends on the start position only through the first Scan. */
  lemma TokenizeFromSameScan(s: string, a: nat, b: nat)
    requires a <= |s| && b <= |s| && Scan(s, a) == Scan(s, b)
    ensures TokenizeFrom(s, a) == TokenizeFrom(s, b)
  {
  }

  /** A rendering starts with the first token's text and a newline, followed by the rendering of the rest. */
  lemma RenderUnfolds(s: string, i: nat, ts: seq<Token>)
    requires i <= |s| && |ts| > 0 && AllLexable(ts)
    requires s[i..] == Render(ts)
    ensures var n := |TokenText(ts[0])|;
            i + n + 1 <= |s| && s[i..i + n] == TokenText(ts[0]) && s[i + n] == '\n'
            && AllLexable(ts[1..]) && s[i + n + 1..] == Render(ts[1..])
  {
    var text := TokenText(ts[0]);
    var n := |text|;
    assert s[i..] == text + "\n" + Render(ts[1..]);
    assert s[i..][..n] == text;
    assert s[i..][n + 1..] == Render(ts[1..]);
  }

  /**
   * At i, s holds the text of t and a newline, and what follows is empty or
   * starts with a character that is neither blank nor NUL.
   */
  predicate TokenLineAt(s: string, i: nat, t: Token) {
    Lexable(t) && i + |TokenText(t)| < |s|
    && s[i..i + |TokenText(t)|] == TokenText(t) && s[i + |TokenText(t)|] == '\n'
    && (i + |TokenText(t)| + 1 == |s| || (!IsWhitespace(s[i + |TokenText(t)| + 1]) && s[i + |TokenText(t)| + 1] != Nul))
  }

  /**
   * Reading one token text followed by a newline, where the next text is empty or
   * starts a token: Scan returns the token, and only blanks lie between where it
   * stops and the start of the next line.
   */
  lemma ScanTokenLine(s: string, i: nat, t: Token)
    requires TokenLineAt(s, i, t)
    ensures ScanResumes(s, i, t, i + |TokenText(t)| + 1)
  {
    ScanTokenText(s, i, t);
  }

  /** Scan on a token line reads the token, and a line comment its newline too. */
  lemma ScanTokenText(s: string, i: nat, t: Token)
    requires TokenLineAt(s, i, t)
    ensures Scan(s, i) == (t, i + |TokenText(t)| + if IsLineComment(t) then 1 else 0)
  {
    ScanSkipsBlanks(s, i, i);
    ScanReadsTokenText(s, i, t);
  }

  /**
   * Scan at i reads t, which is not EOF, and stops before j with only blanks in
   * between; at j the input ends or a token starts.
   */
  predicate ScanResumes(s: string, i: nat, t: Token, j: nat) {
    i <= |s| && j <= |s| && Scan(s, i).0 == t && t.kind != Eof && Scan(s, i).1 <= j
    && (forall k :: Scan(s, i).1 <= k < j ==> IsWhitespace(s[k]))
    && (j == |s| || (!IsWhitespace(s[j]) && s[j] != Nul))
  }

  /** If Scan at i reads t and then resumes where reading j would, TokenizeFrom at i is t followed by TokenizeFrom at j. */
  lemma TokenizeFromAfterScan(s: string, i: nat, j: nat, t: Token)
    requires ScanResumes(s, i, t, j)
    ensures TokenizeFrom(s, i) == [t] + TokenizeFrom(s, j)
  {
    var p := Scan(s, i).1;
    TokenizeFromUnfolds(s, i);
    if p != j {
      ScanSkipsBlanks(s, p, j);
      ScanSkipsBlanks(s, j, j);
      TokenizeFromSameScan(s, p, j);
    }
  }

  /** A rendering is empty or starts with a character that is neither blank nor NUL. */
  lemma NextTextStartsToken(s: string, j: nat, ts: seq<Token>)
    requires j <= |s| && AllLexable(ts) && s[j..] == Render(ts)
    ensures j == |s| || (!IsWhitespace(s[j]) && s[j] != Nul)
  {
    if ts != [] {
      RenderUnfolds(s, j, ts);
    }
  }

  /**
   * Reading a rendering, with the reader abstracted to f: if f reads every token
   * line as its token followed by what comes after the line, and reads the end as
   * a lone EOF, then f reads a rendering as its tokens followed by EOF.
   */
  lemma {:induction false} ReadRendering(f: nat -> seq<Token>, s: string, i: nat, ts: seq<Token>)
    requires i <= |s| && AllLexable(ts) && s[i..] == Render(ts)
    requires f(|s|) == [EofToken]
    requires forall k: nat, t :: TokenLineAt(s, k, t) ==> f(k) == [t] + f(k + |TokenText(t)| + 1)
    ensures f(i) == ts + [EofToken]
    decreases |ts|
  {
    if ts == [] {
      assert i == |s|;
    } else {
      var j := ReadRenderedLine(f, s, i, ts);
      ReadRendering(f, s, j, ts[1..]);
      ConsTail(ts, [EofToken]);
    }
  }

  /** The reader of ReadRendering reads the first line of a rendering as its token. */
  lemma ReadRenderedLine(f: nat -> seq<Token>, s: string, i: nat, ts: seq<Token>) returns (j: nat)
    requires i <= |s| && |ts| > 0 && AllLexable(ts) && s[i..] == Render(ts)
    requires forall k: nat, t :: TokenLineAt(s, k, t) ==> f(k) == [t] + f(k + |TokenText(t)| + 1)
    ensures i < j <= |s| && AllLexable(ts[1..]) && s[j..] == Render(ts[1..])
    ensures f(i) == [ts[0]] + f(j)
  {
    j := RenderedLine(s, i, ts);
  }

  lemma ConsTail<T>(ts: seq<T>, e: seq<T>)
    requires ts != []
    ensures [ts[0]] + (ts[1..] + e) == ts + e
  {
    assert ts == [ts[0]] + ts[1..];
  }

  /** The first line of a rendering is a token line, and the rest of the text renders the other tokens. */
  lemma RenderedLine(s: string, i: nat, ts: seq<Token>) returns (j: nat)
    requires i <= |s| && |ts| > 0 && AllLexable(ts) && s[i..] == Render(ts)
    ensures j == i + |TokenText(ts[0])| + 1 <= |s|
    ensures TokenLineAt(s, i, ts[0]) && AllLexable(ts[1..]) && s[j..] == Render(ts[1..])
  {
    j := i + |TokenText(ts[0])| + 1;
    RenderUnfolds(s, i, ts);
    NextTextStartsToken(s, j, ts[1..]);
  }

  lemma ScansResumeTokenize(s: string)
    ensures forall k: nat, t, j: nat :: ScanResumes(s, k, t, j) ==> TokenizeFrom(s, k) == [t] + TokenizeFrom(s, j)
  {
    forall k: nat, t, j: nat | ScanResumes(s, k, t, j)
      ensures TokenizeFrom(s, k) == [t] + TokenizeFrom(s, j)
    {
      TokenizeFromAfterScan(s, k, j, t);
    }
  }

  /** A reader that follows Scan, token by token, reads a token line as its token followed by the rest. */
  lemma ScanReaderReadsLine(f: nat -> seq<Token>, s: string, k: nat, t: Token)
    requires forall k: nat, t, j: nat :: ScanResumes(s, k, t, j) ==> f(k) == [t] + f(j)
    requires TokenLineAt(s, k, t)
    ensures f(k) == [t] + f(k + |TokenText(t)| + 1)
  {
    ScanTokenLine(s, k, t);
  }

  lemma ScanReaderReadsLines(f: nat -> seq<Token>, s: string)
    requires forall k: nat, t, j: nat :: ScanResumes(s, k, t, j) ==> f(k) == [t] + f(j)
    ensures forall k: nat, t :: TokenLineAt(s, k, t) ==> f(k) == [t] + f(k + |TokenText(t)| + 1)
  {
    forall k: nat, t | TokenLineAt(s, k, t)
      ensures f(k) == [t] + f(k + |TokenText(t)| + 1)
    {
      ScanReaderReadsLine(f, s, k, t);
    }
  }

  lemma TokenizeFromRender(s: string, i: nat, ts: seq<Token>)
    requires i <= |s|
    requires AllLexable(ts)
    requires s[i..] == Render(ts)
    ensures TokenizeFrom(s, i) == ts + [EofToken]
  {
    var f: nat -> seq<Token> := (k: nat) => if k <= |s| then TokenizeFrom(s, k) else [];
    ScansResumeTokenize(s);
    forall k: nat, t, j: nat | ScanResumes(s, k, t, j)
      ensures f(k) == [t] + f(j)
    {
    }
    ScanReaderReadsLines(f, s);
    TokenizeFromEnd(s, |s|);
    ReadRendering(f, s, i, ts);
  }

  lemma TokenizeFromEnd(s: string, i: nat)
    requires i == |s|
    ensures TokenizeFrom(s, i) == [EofToken]
  {
  }

  /**
   * Scan and Render are inverse: every sequence of tokens of the shapes Scan
   * produces is lexed back, token for token, from its rendering.
   */
  lemma TokenizeInvertsRender(ts: seq<Token>)
    requires AllLexable(ts)
    ensures Tokenize(Render(ts)) == ts + [EofToken]
  {
    TokenizeFromRender(Render(ts), 0, ts);
  }
}
