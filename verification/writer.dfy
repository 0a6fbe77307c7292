/**
 * A writer for games, the partner of the parser: tag pairs, then each move
 * in SAN followed by its glyphs as NAG tokens and its variations in
 * parentheses, then the result, as tokens and as text.
 */
module Writer {
  import opened Results
  import opened Chars
  import opened Decimal
  import opened Tokens
  import opened Notation
  import opened San
  import opened Scanner
  import opened Parser
  import opened Layout

  /** The tag map after applying the pairs in order: a later pair for the same key replaces an earlier one. */
  function TagsInto(tags: map<string, string>, pairs: seq<(string, string)>): map<string, string>
    decreases |pairs|
  {
    if pairs == [] then tags else TagsInto(tags[pairs[0].0 := pairs[0].1], pairs[1..])
  }

  function TagMap(pairs: seq<(string, string)>): map<string, string> {
    TagsInto(map[], pairs)
  }

  /** The value of a key is the one of its last pair; keys without a pair keep their old value. */
  lemma {:induction false} TagsIntoLastWins(tags: map<string, string>, pairs: seq<(string, string)>, k: string)
    ensures k in TagsInto(tags, pairs) <==> k in tags || exists p :: 0 <= p < |pairs| && pairs[p].0 == k
    ensures forall p :: 0 <= p < |pairs| && pairs[p].0 == k && (forall q :: p < q < |pairs| ==> pairs[q].0 != k)
              ==> k in TagsInto(tags, pairs) && TagsInto(tags, pairs)[k] == pairs[p].1
    ensures (forall p :: 0 <= p < |pairs| ==> pairs[p].0 != k) && k in tags ==> k in TagsInto(tags, pairs) && TagsInto(tags, pairs)[k] == tags[k]
    decreases |pairs|
  {
    if pairs != [] {
      var rest := pairs[1..];
      var tags' := tags[pairs[0].0 := pairs[0].1];
      TagsIntoLastWins(tags', rest, k);
      assert forall p :: 1 <= p < |pairs| ==> pairs[p] == rest[p - 1];
      if exists p :: 0 <= p < |pairs| && pairs[p].0 == k {
        var p :| 0 <= p < |pairs| && pairs[p].0 == k;
        if p > 0 {
          assert rest[p - 1].0 == k;
        }
      }
    }
  }

  lemma TagMapLastWins(pairs: seq<(string, string)>, k: string)
    ensures k in TagMap(pairs) <==> exists p :: 0 <= p < |pairs| && pairs[p].0 == k
    ensures forall p :: 0 <= p < |pairs| && pairs[p].0 == k && (forall q :: p < q < |pairs| ==> pairs[q].0 != k)
              ==> k in TagMap(pairs) && TagMap(pairs)[k] == pairs[p].1
  {
    TagsIntoLastWins(map[], pairs, k);
  }

  function TagTokens(pairs: seq<(string, string)>): (ts: seq<Token>)
    ensures |ts| == 4 * |pairs|
  {
    if pairs == [] then []
    else [Token(LBracket, "["), Token(Ident, pairs[0].0), Token(Str, pairs[0].1), Token(RBracket, "]")] + TagTokens(pairs[1..])
  }

  /** The head token of a move: its SAN, without glyphs or variations, as an identifier. */
  function SanHead(m: Move): Token {
    Token(Ident, FormatMoveToSAN(Bare(m)))
  }

  /** The token of a glyph: its number, as strconv.Itoa writes it, as a NAG. */
  function GlyphToken(n: int): Token {
    Token(Nag, IntToString(n))
  }

  predicate SanWritable(m: Move) {
    SanCanonical(Bare(m))
  }

  /** The scanner reads a NAG as a run of digits and the parser as an int64, so the glyphs written are those in 0 .. MaxInt64. */
  predicate GlyphWritable(n: int) {
    0 <= n <= MaxInt64
  }

  /** Movetext as PGN spells it: SAN head tokens and NAG glyph tokens. */
  const Pgn: Spelling := Spelling(SanHead, GlyphToken, SanWritable, GlyphWritable)

  /** The result of a game as tokens: nothing when unknown, `*`, or an identifier. */
  function ResultTokens(result: string): (ts: seq<Token>)
    ensures result == "" <==> ts == []
    ensures result != "" ==> |ts| == 1 && ts[0].literal == result
    ensures result in ResultLiterals ==> |ts| == 1 && IsResult(ts[0])
  {
    if result == "" then []
    else if result == "*" then [Token(Asterisk, "*")]
    else [Token(Ident, result)]
  }

  /** A game as tokens: its tag pairs, its movetext and its result. */
  function WriteTokens(pairs: seq<(string, string)>, ms: seq<Move>, result: string): seq<Token> {
    TagTokens(pairs) + MovesTokens(Pgn, ms) + ResultTokens(result)
  }

  /** The tokens of a game followed by the end, as the lexer delivers them. */
  function GameTokens(pairs: seq<(string, string)>, ms: seq<Move>, result: string): seq<Token> {
    WriteTokens(pairs, ms, result) + [EofToken]
  }

  /**
   * The games the writer spells without loss: writable moves; a result that
   * is unknown or one of the four literals; not `*` without moves, since a
   * game cannot start with it; and in strict mode, a result whenever there
   * are moves.
   */
  predicate WritableGame(ms: seq<Move>, result: string, strict: bool) {
    WritableMoves(Pgn, ms)
    && (result == "" || result in ResultLiterals)
    && !(ms == [] && result == "*")
    && !(strict && ms != [] && result == "")
  }

  lemma AllIdentCharsConcat(a: string, b: string)
    requires AllIdentChars(a) && AllIdentChars(b)
    ensures AllIdentChars(a + b)
  {
    forall k | 0 <= k < |a + b|
      ensures IsIdentChar((a + b)[k])
    {
      if k >= |a| {
        assert (a + b)[k] == b[k - |a|];
      }
    }
  }

  /** The promotion and check marks of SAN are identifier characters. */
  lemma MarksAreIdentChars(m: Move)
    ensures AllIdentChars(PromotionText(m) + CheckText(m))
  {
    var t := PromotionText(m) + CheckText(m);
    forall k | 0 <= k < |t|
      ensures IsIdentChar(t[k])
    {
      assert t[k] in "=NBRQK+#";
    }
  }

  /**
   * The SAN of a move off the castles is a run of identifier characters that
   * starts with a letter or digit; if it starts with a digit, a file letter
   * follows later.
   */
  lemma SanWordShape(b: Move)
    requires SanCanonical(b) && !b.isKingsideCastle && !b.isQueensideCastle
    ensures var s := FormatMoveToSAN(b);
            var pre := |PrefixText(b) + CaptureText(b)|;
            |s| > pre && AllIdentChars(s) && (IsLetter(s[0]) || IsDigit(s[0]))
            && IsFile(s[pre]) && (IsDigit(s[0]) ==> pre > 0)
  {
    var s := FormatMoveToSAN(b);
    var body := PrefixText(b) + CaptureText(b) + SquareToString(b.to);
    BodyOfOnBoardMove(b);
    SquareToStringRoundTrips(b.to, "");
    MarksAreIdentChars(b);
    assert AllIdentChars(body);
    AllIdentCharsConcat(body, PromotionText(b) + CheckText(b));
    assert s == body + (PromotionText(b) + CheckText(b));
    var pre := |PrefixText(b) + CaptureText(b)|;
    assert s[pre] == body[pre] == SquareName(b.to)[0];
  }

  /** The SAN of a writable move is text the scanner reads back as one identifier. */
  lemma SanLexable(m: Move)
    requires SanWritable(m)
    ensures Lexable(SanHead(m))
  {
    var b := Bare(m);
    if !b.isKingsideCastle && !b.isQueensideCastle {
      var s := FormatMoveToSAN(b);
      SanWordShape(b);
      var pre := |PrefixText(b) + CaptureText(b)|;
      assert !IsDigit(s[pre]);
    }
  }

  /** A tag pair whose key lexes as an identifier and whose value as a string. */
  predicate LexableTag(pair: (string, string)) {
    Lexable(Token(Ident, pair.0)) && Lexable(Token(Str, pair.1))
  }

  /**
   * The games the writer spells as text: writable moves, tags that lex back
   * as they are, and a result the lexer reads as one token, which excludes
   * `1/2-1/2`.
   */
  predicate TextWritable(pairs: seq<(string, string)>, ms: seq<Move>, result: string) {
    WritableMoves(Pgn, ms)
    && (forall k :: 0 <= k < |pairs| ==> LexableTag(pairs[k]))
    && result in {"", "*", "1-0", "0-1"}
  }

  /** Both parentheses, and the head and glyph tokens of every writable move and glyph, lex back. */
  lemma PgnSpellsLexably()
    ensures SpellsWithin(Pgn, Lexable)
  {
    forall m
      ensures HeadWithin(Pgn, Lexable, m)
    {
      if SanWritable(m) {
        SanLexable(m);
      }
    }
  }

  lemma {:induction false} TagTokensLexable(pairs: seq<(string, string)>)
    requires forall k :: 0 <= k < |pairs| ==> LexableTag(pairs[k])
    ensures AllLexable(TagTokens(pairs))
    decreases |pairs|
  {
    if pairs != [] {
      assert LexableTag(pairs[0]);
      TagTokensLexable(pairs[1..]);
      var four := [Token(LBracket, "["), Token(Ident, pairs[0].0), Token(Str, pairs[0].1), Token(RBracket, "]")];
      AllTokensConcat(four, TagTokens(pairs[1..]), Lexable);
    }
  }

  lemma AllLexableTokens(ts: seq<Token>)
    ensures AllLexable(ts) <==> AllTokens(ts, Lexable)
  {
  }

  /** The result tokens of a text-writable game lex back; `1-0` and `0-1` are identifiers Atoi rejects. */
  lemma ResultTokensLexable(result: string)
    requires result in {"", "*", "1-0", "0-1"}
    ensures AllTokens(ResultTokens(result), Lexable)
  {
    if result == "1-0" || result == "0-1" {
      assert result[1] == '-';
      assert Atoi(result).None?;
      assert Lexable(ResultTokens(result)[0]);
    }
  }

  /** Every token the writer produces for a text-writable game lexes back. */
  lemma WriteTokensLexable(pairs: seq<(string, string)>, ms: seq<Move>, result: string)
    requires TextWritable(pairs, ms, result)
    ensures AllLexable(WriteTokens(pairs, ms, result))
  {
    PgnSpellsLexably();
    MovesTokensWithin(Pgn, ms, Lexable);
    TagTokensLexable(pairs);
    AllLexableTokens(TagTokens(pairs));
    ResultTokensLexable(result);
    AllTokensConcat(TagTokens(pairs), MovesTokens(Pgn, ms), Lexable);
    AllTokensConcat(TagTokens(pairs) + MovesTokens(Pgn, ms), ResultTokens(result), Lexable);
    AllLexableTokens(WriteTokens(pairs, ms, result));
  }

  /** The first token the writer produces is a `[`, a move, or a result: never an ILLEGAL token. */
  lemma WriteTokensStart(pairs: seq<(string, string)>, ms: seq<Move>, result: string)
    ensures |WriteTokens(pairs, ms, result)| > 0 ==> WriteTokens(pairs, ms, result)[0].kind != Illegal
  {
    var ts := WriteTokens(pairs, ms, result);
    if pairs == [] && ms != [] {
      assert ts == MovesTokens(Pgn, ms) + ResultTokens(result);
      HeadTokenAt(ts, Pgn, 0, ms[0], MovesTokens(Pgn, ms[1..]) + ResultTokens(result));
    }
  }

  /** A rendering whose first token is not an ILLEGAL one starts with an ASCII character, so not with a byte order mark. */
  lemma RenderStartsWithoutBom(ts: seq<Token>)
    requires AllLexable(ts) && |ts| > 0 && ts[0].kind != Illegal
    ensures Render(ts)[0] != Bom
  {
    assert Lexable(ts[0]);
    assert Render(ts)[0] == TokenText(ts[0])[0];
  }

  /** The text of a game: each token's text on a line of its own. */
  function WriteGame(pairs: seq<(string, string)>, ms: seq<Move>, result: string): (s: string)
    requires TextWritable(pairs, ms, result)
    ensures |s| > 0 ==> s[0] != Bom
  {
    WriteTokensLexable(pairs, ms, result);
    WriteTokensStart(pairs, ms, result);
    var ts := WriteTokens(pairs, ms, result);
    if |ts| > 0 then RenderStartsWithoutBom(ts); Render(ts) else Render(ts)
  }
}
