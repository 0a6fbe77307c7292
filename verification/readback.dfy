/**
 * The parser reads back what the writer writes. Each step of parseMovetext
 * on a written token is proved once, for one token; the movetext layout is
 * then read generically, for any spelling whose tokens the parser reads that
 * way, so that the proofs about whole games never look inside a SAN string.
 */
module ReadBack {
  import opened Results
  import opened Decimal
  import opened Tokens
  import opened Notation
  import opened San
  import opened Scanner
  import opened Parser
  import opened Layout
  import opened Writer

  lemma UpdateLastAppended(acc: seq<Move>, x: Move, f: Move -> Move)
    ensures UpdateLast(acc + [x], f) == acc + [f(x)]
  {
    assert (acc + [x])[..|acc|] == acc;
  }

  /** Text without `=` or a check mark that is no castle and does not end in a square name is no move. */
  lemma NoSquareNoMove(raw: string)
    requires '=' !in raw && raw != "O-O" && raw != "O-O-O"
    requires |raw| >= 2 && raw[|raw| - 1] != '+' && raw[|raw| - 1] != '#'
    requires NewSquare(raw[|raw| - 2..]).None?
    ensures ParseMoveFromRaw(raw).None?
  {
    assert IndexOf(raw, '=') == None;
  }

  /** The decomposer rejects the three result identifiers. */
  lemma ResultsAreNotMoves()
    ensures ParseMoveFromRaw("1-0").None? && ParseMoveFromRaw("0-1").None? && ParseMoveFromRaw("1/2-1/2").None?
  {
    assert "1-0"[1..] == "-0";
    NoSquareNoMove("1-0");
    assert "0-1"[1..] == "-1";
    NoSquareNoMove("0-1");
    assert "1/2-1/2"[5..] == "/2";
    NoSquareNoMove("1/2-1/2");
  }

  /** The SAN of a move is never one of the result identifiers, so parseMovetext reads it as a move. */
  lemma SanIsNotResult(m: Move)
    requires SanCanonical(m)
    ensures !IsResult(Token(Ident, FormatMoveToSAN(m)))
  {
    ParseInvertsFormat(m);
    ResultsAreNotMoves();
  }

  /** One NAG token: its number is appended to the glyphs of the last move. */
  lemma {:induction false} NagStep(ts: seq<Token>, i: nat, acc: seq<Move>, x: Move, n: int)
    requires MinInt64 <= n <= MaxInt64 && i < |ts| && ts[i] == GlyphToken(n)
    ensures ParseMovetext(ts, i, acc + [x]) == ParseMovetext(ts, i + 1, acc + [x.(nags := x.nags + [n])])
  {
    AtoiInvertsIntToString(n);
    UpdateLastAppended(acc, x, (m: Move) => m.(nags := m.nags + [n]));
    assert ParseMovetext(ts, i, acc + [x]) == NagToken(ts, i, acc + [x]);
  }

  /** One SAN token: the move it spells is appended. */
  lemma {:induction false} MoveStep(ts: seq<Token>, i: nat, acc: seq<Move>, m: Move)
    requires SanCanonical(m) && i < |ts| && ts[i] == Token(Ident, FormatMoveToSAN(m))
    ensures ParseMovetext(ts, i, acc) == ParseMovetext(ts, i + 1, acc + [m])
  {
    ParseInvertsFormat(m);
    SanIsNotResult(m);
    assert ParseMovetext(ts, i, acc) == MoveToken(ts, i, acc);
  }

  /** One variation, read up to its `)`: it is appended to the variations of the last move. */
  lemma {:induction false} VariationStep(ts: seq<Token>, i: nat, j: nat, acc: seq<Move>, x: Move, v: Variation)
    requires i < j < |ts| && ts[i].kind == LParen && ts[j].kind == RParen
    requires ParseMovetext(ts, i + 1, []) == ParseMovetext(ts, j, v.moves)
    ensures ParseMovetext(ts, i, acc + [x]) == ParseMovetext(ts, j + 1, acc + [x.(variations := x.variations + [v])])
  {
    assert ParseRAV(ts, i) == Ok((v.moves, j + 1));
    UpdateLastAppended(acc, x, (m: Move) => m.(variations := m.variations + [Variation(v.moves)]));
    assert ParseMovetext(ts, i, acc + [x]) == VariationToken(ts, i, acc + [x]);
  }

  /** parseMovetext as a reader of movetext, from every position it can start at. */
  function MovetextFrom(ts: seq<Token>): MovetextReader<Result<(seq<Move>, nat), ParseError>> {
    (k: nat, acc: seq<Move>) => if k <= |ts| then ParseMovetext(ts, k, acc) else Err(UnexpectedInMovetext)
  }

  /** Where parseMovetext can start, MovetextFrom is parseMovetext. */
  lemma MovetextFromAt(ts: seq<Token>, a: nat, x: seq<Move>)
    requires a <= |ts|
    ensures MovetextFrom(ts)(a, x) == ParseMovetext(ts, a, x)
  {
  }

  /** Two readings of MovetextFrom that agree are two parseMovetext calls that agree. */
  lemma MovetextFromAgrees(ts: seq<Token>, a: nat, b: nat, x: seq<Move>, y: seq<Move>)
    requires a <= |ts| && b <= |ts| && MovetextFrom(ts)(a, x) == MovetextFrom(ts)(b, y)
    ensures ParseMovetext(ts, a, x) == ParseMovetext(ts, b, y)
  {
    MovetextFromAt(ts, a, x);
    MovetextFromAt(ts, b, y);
  }

  /** parseMovetext reads a SAN head token as its bare move. */
  lemma ParserReadsPgnHeads(ts: seq<Token>)
    ensures ReadsHeads(ts, Pgn, MovetextFrom(ts))
  {
    var f := MovetextFrom(ts);
    forall k: nat, acc: seq<Move>, m: Move {:trigger HeadAt(ts, Pgn, k, m), f(k, acc)} | HeadAt(ts, Pgn, k, m)
      ensures f(k, acc) == f(k + 1, acc + [Bare(m)])
    {
      MoveStep(ts, k, acc, Bare(m));
    }
  }

  /** parseMovetext reads a NAG token as a glyph on the last move. */
  lemma ParserReadsPgnGlyphs(ts: seq<Token>)
    ensures ReadsGlyphs(ts, Pgn, MovetextFrom(ts))
  {
    var f := MovetextFrom(ts);
    forall k: nat, acc: seq<Move>, x: Move, n: int {:trigger GlyphAt(ts, Pgn, k, n), f(k, acc + [x])} | GlyphAt(ts, Pgn, k, n)
      ensures f(k, acc + [x]) == f(k + 1, acc + [x.(nags := x.nags + [n])])
    {
      NagStep(ts, k, acc, x, n);
    }
  }

  /** parseMovetext reads a parenthesised movetext as a variation of the last move. */
  lemma ParserReadsVariations(ts: seq<Token>)
    ensures ReadsVariations(ts, MovetextFrom(ts))
  {
    var f := MovetextFrom(ts);
    forall k: nat, j: nat, acc: seq<Move>, x: Move, v: seq<Move> {:trigger ParensAt(ts, k, j), f(j, v), f(k, acc + [x])} | ParensAt(ts, k, j) && f(k + 1, []) == f(j, v)
      ensures f(k, acc + [x]) == f(j + 1, acc + [x.(variations := x.variations + [Variation(v)])])
    {
      VariationStep(ts, k, j, acc, x, Variation(v));
    }
  }

  /** A token that starts a game's movetext in parseGame. */
  predicate IsIdentToken(t: Token) {
    t.kind == Ident
  }

  /**
   * The spellings the parser reads back: on every token sequence it reads
   * their layout as parseMovetext does, and their head tokens are identifiers.
   */
  ghost predicate ParserReads(sp: Spelling) {
    (forall ts :: ReadsLikeMovetext(ts, sp, MovetextFrom(ts)))
    && (forall m :: HeadWithin(sp, IsIdentToken, m))
  }

  /** The parser reads the PGN spelling. */
  lemma PgnIsRead()
    ensures ParserReads(Pgn)
  {
    forall ts
      ensures ReadsLikeMovetext(ts, Pgn, MovetextFrom(ts))
    {
      ParserReadsPgnHeads(ts);
      ParserReadsPgnGlyphs(ts);
      ParserReadsVariations(ts);
    }
    forall m
      ensures HeadWithin(Pgn, IsIdentToken, m)
    {
    }
  }

  /**
   * parseMovetext reads the tokens written for a list of moves back as those
   * moves: from the start of the tokens with no moves read, it continues as
   * from their end with the moves read.
   */
  lemma ParseMovesTokens(sp: Spelling, ts: seq<Token>, i: nat, ms: seq<Move>, rest: seq<Token>)
    requires ParserReads(sp)
    requires WritableMoves(sp, ms) && i <= |ts| && ts[i..] == MovesTokens(sp, ms) + rest
    ensures i + |MovesTokens(sp, ms)| <= |ts|
    ensures MovetextFrom(ts)(i, []) == MovetextFrom(ts)(i + |MovesTokens(sp, ms)|, ms)
  {
    assert ReadsLikeMovetext(ts, sp, MovetextFrom(ts));
    ReadMoves(ts, sp, MovetextFrom(ts), i, [], ms, rest);
    assert [] + ms == ms;
  }

  /** parseGame, before any move, as a reader of tag pairs: from a position and the tags so far, the game it parses. */
  function GameFrom(ts: seq<Token>, strict: bool): (nat, map<string, string>) -> Result<Game, ParseError> {
    (k: nat, tags: map<string, string>) => if k <= |ts| then ParseGame(ts, k, Game(tags, [], ""), strict) else Err(UnexpectedStart)
  }

  /** Tokens k to k + 3 are the tag pair that sets key to value. */
  predicate TagAt(ts: seq<Token>, k: nat, key: string, value: string) {
    k + 3 < |ts| && ts[k] == Token(LBracket, "[") && ts[k + 1] == Token(Ident, key)
    && ts[k + 2] == Token(Str, value) && ts[k + 3] == Token(RBracket, "]")
  }

  /** One tag pair before any move: the key is set to the value, and the game goes on four tokens later. */
  lemma {:induction false} TagStep(ts: seq<Token>, k: nat, tags: map<string, string>, key: string, value: string, strict: bool)
    requires TagAt(ts, k, key, value)
    ensures GameFrom(ts, strict)(k, tags) == GameFrom(ts, strict)(k + 4, tags[key := value])
  {
    assert ParseTagPair(ts, k, tags) == Ok((tags[key := value], k + 4));
    assert ParseGame(ts, k, Game(tags, [], ""), strict) == ParseGame(ts, k + 4, Game(tags[key := value], [], ""), strict);
  }

  ghost predicate ReadsTags<R>(ts: seq<Token>, f: (nat, map<string, string>) -> R) {
    forall k: nat, tags: map<string, string>, key: string, value: string {:trigger TagAt(ts, k, key, value), f(k, tags)} ::
      TagAt(ts, k, key, value) ==> f(k, tags) == f(k + 4, tags[key := value])
  }

  lemma ParserReadsTags(ts: seq<Token>, strict: bool)
    ensures ReadsTags(ts, GameFrom(ts, strict))
  {
    var f := GameFrom(ts, strict);
    forall k: nat, tags: map<string, string>, key: string, value: string {:trigger TagAt(ts, k, key, value), f(k, tags)} | TagAt(ts, k, key, value)
      ensures f(k, tags) == f(k + 4, tags[key := value])
    {
      TagStep(ts, k, tags, key, value, strict);
    }
  }

  /** Reading written tag pairs sets each key to its value, later pairs replacing earlier ones. */
  lemma {:induction false} ReadTags<R>(ts: seq<Token>, f: (nat, map<string, string>) -> R, i: nat, tags: map<string, string>, pairs: seq<(string, string)>, rest: seq<Token>)
    requires ReadsTags(ts, f)
    requires i <= |ts| && ts[i..] == TagTokens(pairs) + rest
    ensures i + 4 * |pairs| <= |ts|
    ensures f(i, tags) == f(i + 4 * |pairs|, TagsInto(tags, pairs))
    decreases |pairs|
  {
    if pairs != [] {
      var four := [Token(LBracket, "["), Token(Ident, pairs[0].0), Token(Str, pairs[0].1), Token(RBracket, "]")];
      var tail := TagTokens(pairs[1..]) + rest;
      assert ts[i..] == four + tail;
      SuffixAfter(ts, i, four, tail);
      assert TagAt(ts, i, pairs[0].0, pairs[0].1);
      ReadTags(ts, f, i + 4, tags[pairs[0].0 := pairs[0].1], pairs[1..], rest);
    }
  }

  /** The tag pairs at the start of a game: after them the parser stands at the movetext with the tags set. */
  lemma {:induction false} ReadGameTags(ts: seq<Token>, pairs: seq<(string, string)>, rest: seq<Token>, strict: bool)
    requires ts[0..] == TagTokens(pairs) + rest
    ensures 4 * |pairs| <= |ts| && ts[4 * |pairs|..] == rest
    ensures GameFrom(ts, strict)(0, map[]) == GameFrom(ts, strict)(4 * |pairs|, TagMap(pairs))
  {
    ParserReadsTags(ts, strict);
    ReadTags(ts, GameFrom(ts, strict), 0, map[], pairs, rest);
    SuffixAfter(ts, 0, TagTokens(pairs), rest);
  }

  /** Parse is parseGame from the start, and GameFrom is parseGame where it can start. */
  lemma GameFromAt(ts: seq<Token>, p: nat, tags: map<string, string>, strict: bool)
    requires p <= |ts|
    ensures GameFrom(ts, strict)(p, tags) == ParseGame(ts, p, Game(tags, [], ""), strict)
    ensures Parse(ts, strict) == GameFrom(ts, strict)(0, map[])
  {
  }

  /** What follows the movetext: the result token, if any, then the end. */
  lemma {:induction false} EndTokens(ts: seq<Token>, q: nat, result: string)
    requires q <= |ts| && ts[q..] == ResultTokens(result) + [EofToken]
    ensures result == "" ==> Tok(ts, q) == EofToken
    ensures result != "" ==> q + 1 < |ts| && ts[q].literal == result && Tok(ts, q + 1) == EofToken
    ensures result in ResultLiterals ==> IsResult(Tok(ts, q))
    ensures result != "" && result !in ResultLiterals ==> Tok(ts, q).kind == Ident
  {
    assert ts[q] == ts[q..][0];
    if result != "" {
      assert ts[q + 1] == ts[q..][1];
    }
  }

  /** A game without moves: its result token, if any, is read at once and the game ends. */
  lemma {:induction false} ReadEmptyMovetext(ts: seq<Token>, q: nat, tags: map<string, string>, result: string, strict: bool)
    requires q <= |ts| && ts[q..] == ResultTokens(result) + [EofToken]
    requires result == "" || (result in ResultLiterals && result != "*")
    ensures ParseGame(ts, q, Game(tags, [], ""), strict) == Ok(Game(tags, [], result))
  {
    var g := Game(tags, [], "");
    EndTokens(ts, q, result);
    if result != "" {
      assert ParseMovetext(ts, q, []) == Ok(([], q));
      assert ParseGame(ts, q, g, strict) == GameMovetext(ts, q, g, strict);
    }
  }

  /** Once the movetext has been read up to position q, the result token there, or the end, closes the game. */
  lemma {:induction false} FinishGame(ts: seq<Token>, p: nat, q: nat, tags: map<string, string>, ms: seq<Move>, result: string, strict: bool)
    requires p < |ts| && ts[p].kind == Ident && q <= |ts|
    requires MovetextFrom(ts)(p, []) == MovetextFrom(ts)(q, ms)
    requires ts[q..] == ResultTokens(result) + [EofToken]
    requires result == "" || result in ResultLiterals
    requires !(strict && result == "")
    ensures ParseGame(ts, p, Game(tags, [], ""), strict) == Ok(Game(tags, ms, result))
  {
    var g := Game(tags, [], "");
    MovetextFromAgrees(ts, p, q, [], ms);
    EndTokens(ts, q, result);
    assert ParseGame(ts, p, g, strict) == GameMovetext(ts, p, g, strict);
    assert ParseMovetext(ts, q, ms) == Ok((ms, q));
  }

  /** Written movetext with moves, followed by any tokens: it starts with an identifier, and those tokens follow it. */
  lemma {:induction false} MovetextLayout(sp: Spelling, ts: seq<Token>, p: nat, ms: seq<Move>, end: seq<Token>)
    requires (forall m :: HeadWithin(sp, IsIdentToken, m)) && ms != [] && WritableMoves(sp, ms)
    requires p <= |ts| && ts[p..] == MovesTokens(sp, ms) + end
    ensures p < |ts| && ts[p].kind == Ident
    ensures p + |MovesTokens(sp, ms)| <= |ts| && ts[p + |MovesTokens(sp, ms)|..] == end
  {
    HeadTokenAt(ts, sp, p, ms[0], MovesTokens(sp, ms[1..]) + end);
    assert WritableMove(sp, ms[0]);
    assert HeadWithin(sp, IsIdentToken, ms[0]);
    SuffixAfter(ts, p, MovesTokens(sp, ms), end);
  }

  /** A game with moves: the movetext, then the result token or, without one, the end. */
  lemma {:induction false} ReadMovetextAndResult(sp: Spelling, ts: seq<Token>, p: nat, tags: map<string, string>, ms: seq<Move>, result: string, strict: bool)
    requires ParserReads(sp) && ms != [] && WritableMoves(sp, ms)
    requires result == "" || result in ResultLiterals
    requires !(strict && result == "")
    requires p <= |ts| && ts[p..] == MovesTokens(sp, ms) + (ResultTokens(result) + [EofToken])
    ensures ParseGame(ts, p, Game(tags, [], ""), strict) == Ok(Game(tags, ms, result))
  {
    MovetextLayout(sp, ts, p, ms, ResultTokens(result) + [EofToken]);
    ParseMovesTokens(sp, ts, p, ms, ResultTokens(result) + [EofToken]);
    FinishGame(ts, p, p + |MovesTokens(sp, ms)|, tags, ms, result, strict);
  }

  /** Tags, then the movetext and result of a game, read from any token sequence that spells them. */
  lemma {:induction false} ReadGame(sp: Spelling, ts: seq<Token>, pairs: seq<(string, string)>, ms: seq<Move>, result: string, strict: bool)
    requires ParserReads(sp) && WritableMoves(sp, ms)
    requires result == "" || result in ResultLiterals
    requires !(ms == [] && result == "*") && !(strict && ms != [] && result == "")
    requires ts[0..] == TagTokens(pairs) + (MovesTokens(sp, ms) + (ResultTokens(result) + [EofToken]))
    ensures Parse(ts, strict) == Ok(Game(TagMap(pairs), ms, result))
  {
    var p := 4 * |pairs|;
    ReadGameTags(ts, pairs, MovesTokens(sp, ms) + (ResultTokens(result) + [EofToken]), strict);
    GameFromAt(ts, p, TagMap(pairs), strict);
    if ms == [] {
      ReadEmptyMovetext(ts, p, TagMap(pairs), result, strict);
    } else {
      ReadMovetextAndResult(sp, ts, p, TagMap(pairs), ms, result, strict);
    }
  }

  /** The parser reads the tokens of every writable game back as that game. */
  lemma ParseInvertsWrite(pairs: seq<(string, string)>, ms: seq<Move>, result: string, strict: bool)
    requires WritableGame(ms, result, strict)
    ensures Parse(GameTokens(pairs, ms, result), strict) == Ok(Game(TagMap(pairs), ms, result))
  {
    GameTokensLayout(pairs, ms, result);
    PgnIsRead();
    ReadGame(Pgn, GameTokens(pairs, ms, result), pairs, ms, result, strict);
  }

  lemma GameTokensLayout(pairs: seq<(string, string)>, ms: seq<Move>, result: string)
    ensures GameTokens(pairs, ms, result)[0..] == TagTokens(pairs) + (MovesTokens(Pgn, ms) + (ResultTokens(result) + [EofToken]))
  {
    var ts := GameTokens(pairs, ms, result);
    assert ts[0..] == ts;
  }

  /** A game cannot start with `*`: the writer must not spell a game without moves whose result is `*`. */
  lemma StarWithoutMovesRejected(pairs: seq<(string, string)>, strict: bool)
    ensures Parse(GameTokens(pairs, [], "*"), strict) == Err(UnexpectedStart)
  {
    var ts := GameTokens(pairs, [], "*");
    var rest := StarGameLayout(pairs);
    ReadGameTags(ts, pairs, rest, strict);
    GameFromAt(ts, 4 * |pairs|, TagMap(pairs), strict);
    StarFirst(ts, 4 * |pairs|, rest, TagMap(pairs), strict);
  }

  /** The tokens of a game without moves whose result is `*`. */
  lemma StarGameLayout(pairs: seq<(string, string)>) returns (rest: seq<Token>)
    ensures rest == [Token(Asterisk, "*"), EofToken]
    ensures GameTokens(pairs, [], "*")[0..] == TagTokens(pairs) + rest
  {
    rest := [Token(Asterisk, "*"), EofToken];
  }

  /** Movetext that opens with `*` is not a game. */
  lemma StarFirst(ts: seq<Token>, p: nat, rest: seq<Token>, tags: map<string, string>, strict: bool)
    requires p <= |ts| && ts[p..] == rest && rest == [Token(Asterisk, "*"), EofToken]
    ensures ParseGame(ts, p, Game(tags, [], ""), strict) == Err(UnexpectedStart)
  {
    assert ts[p] == rest[0];
  }

  /** In strict mode the parser rejects movetext that has no result. */
  lemma {:induction false} MissingResultRejected(ts: seq<Token>, p: nat, q: nat, tags: map<string, string>, ms: seq<Move>)
    requires p < |ts| && ts[p].kind == Ident && q < |ts| && ts[q] == EofToken
    requires MovetextFrom(ts)(p, []) == MovetextFrom(ts)(q, ms)
    ensures ParseGame(ts, p, Game(tags, [], ""), true) == Err(MissingResult)
  {
    var g := Game(tags, [], "");
    MovetextFromAgrees(ts, p, q, [], ms);
    assert ParseGame(ts, p, g, true) == GameMovetext(ts, p, g, true);
    assert ParseMovetext(ts, q, ms) == Ok((ms, q));
  }

  lemma {:induction false} ReadMovetextWithoutResult(sp: Spelling, ts: seq<Token>, p: nat, tags: map<string, string>, ms: seq<Move>)
    requires ParserReads(sp) && ms != [] && WritableMoves(sp, ms)
    requires p <= |ts| && ts[p..] == MovesTokens(sp, ms) + [EofToken]
    ensures ParseGame(ts, p, Game(tags, [], ""), true) == Err(MissingResult)
  {
    var q := p + |MovesTokens(sp, ms)|;
    MovetextLayout(sp, ts, p, ms, [EofToken]);
    ParseMovesTokens(sp, ts, p, ms, [EofToken]);
    assert ts[q] == ts[q..][0];
    MissingResultRejected(ts, p, q, tags, ms);
  }

  /** In strict mode a game with moves must have a result: the writer must not omit it there. */
  lemma StrictWithoutResultRejected(pairs: seq<(string, string)>, ms: seq<Move>)
    requires ms != [] && WritableMoves(Pgn, ms)
    ensures Parse(GameTokens(pairs, ms, ""), true) == Err(MissingResult)
  {
    var ts := GameTokens(pairs, ms, "");
    var rest := MovesTokens(Pgn, ms) + [EofToken];
    assert ts[0..] == TagTokens(pairs) + rest;
    ReadGameTags(ts, pairs, rest, true);
    GameFromAt(ts, 4 * |pairs|, TagMap(pairs), true);
    PgnIsRead();
    ReadMovetextWithoutResult(Pgn, ts, 4 * |pairs|, TagMap(pairs), ms);
  }

  /**
   * A stray `)` or `[` right after written movetext: lax mode ends the game
   * there with its moves and no result, strict mode rejects it.
   */
  lemma StrayCloserAfterMoves(pairs: seq<(string, string)>, ms: seq<Move>, closer: Token, rest: seq<Token>)
    requires ms != [] && WritableMoves(Pgn, ms) && (closer.kind == RParen || closer.kind == LBracket)
    ensures var ts := TagTokens(pairs) + (MovesTokens(Pgn, ms) + ([closer] + rest));
      Parse(ts, false) == Ok(Game(TagMap(pairs), ms, "")) && Parse(ts, true) == Err(MissingResult)
  {
    var after := MovesTokens(Pgn, ms) + ([closer] + rest);
    var ts := TagTokens(pairs) + after;
    var p := 4 * |pairs|;
    assert ts[0..] == TagTokens(pairs) + after;
    ReadGameTags(ts, pairs, after, false);
    ReadGameTags(ts, pairs, after, true);
    GameFromAt(ts, p, TagMap(pairs), false);
    GameFromAt(ts, p, TagMap(pairs), true);
    PgnIsRead();
    CloserAfterMovetext(Pgn, ts, p, TagMap(pairs), ms, closer, rest);
  }

  lemma {:induction false} CloserAfterMovetext(sp: Spelling, ts: seq<Token>, p: nat, tags: map<string, string>, ms: seq<Move>, closer: Token, rest: seq<Token>)
    requires ParserReads(sp) && ms != [] && WritableMoves(sp, ms) && (closer.kind == RParen || closer.kind == LBracket)
    requires p <= |ts| && ts[p..] == MovesTokens(sp, ms) + ([closer] + rest)
    ensures ParseGame(ts, p, Game(tags, [], ""), false) == Ok(Game(tags, ms, ""))
    ensures ParseGame(ts, p, Game(tags, [], ""), true) == Err(MissingResult)
  {
    var q := p + |MovesTokens(sp, ms)|;
    var g := Game(tags, [], "");
    MovetextLayout(sp, ts, p, ms, [closer] + rest);
    ParseMovesTokens(sp, ts, p, ms, [closer] + rest);
    MovetextFromAgrees(ts, p, q, [], ms);
    assert ts[q] == ts[q..][0];
    assert ParseMovetext(ts, q, ms) == Ok((ms, q));
    assert ParseGame(ts, p, g, false) == GameMovetext(ts, p, g, false);
    assert ParseGame(ts, p, g, true) == GameMovetext(ts, p, g, true);
  }

  /**
   * A variation whose written moves are followed by a result token instead
   * of `)` is not closed: parseRAV fails.
   */
  lemma ResultEndsWrittenVariation(ts: seq<Token>, i: nat, ms: seq<Move>, r: Token, rest: seq<Token>)
    requires WritableMoves(Pgn, ms) && i < |ts| && ts[i].kind == LParen && IsResult(r)
    requires ts[i + 1..] == MovesTokens(Pgn, ms) + ([r] + rest)
    ensures ParseRAV(ts, i) == Err(UnclosedVariation)
  {
    PgnIsRead();
    var q := WrittenMovesAt(Pgn, ts, i + 1, ms, [r] + rest);
    assert ts[q] == r;
    ResultAfterVariationMoves(ts, i, q, ms);
  }

  /** Written moves at position i are read as those moves, and the rest follows them from position q. */
  lemma WrittenMovesAt(sp: Spelling, ts: seq<Token>, i: nat, ms: seq<Move>, rest: seq<Token>) returns (q: nat)
    requires ParserReads(sp) && WritableMoves(sp, ms) && i <= |ts| && ts[i..] == MovesTokens(sp, ms) + rest
    ensures q == i + |MovesTokens(sp, ms)| <= |ts| && ts[q..] == rest
    ensures MovetextFrom(ts)(i, []) == MovetextFrom(ts)(q, ms)
  {
    ParseMovesTokens(sp, ts, i, ms, rest);
    q := i + |MovesTokens(sp, ms)|;
    RestAfter(ts, i, MovesTokens(sp, ms), rest);
  }

  lemma RestAfter(ts: seq<Token>, i: nat, a: seq<Token>, b: seq<Token>)
    requires i <= |ts| && ts[i..] == a + b
    ensures i + |a| <= |ts| && ts[i + |a|..] == b
  {
    assert ts[i + |a|..] == ts[i..][|a|..];
  }

  lemma {:induction false} ResultAfterVariationMoves(ts: seq<Token>, i: nat, q: nat, ms: seq<Move>)
    requires i < q < |ts| && ts[i].kind == LParen && IsResult(ts[q])
    requires MovetextFrom(ts)(i + 1, []) == MovetextFrom(ts)(q, ms)
    ensures ParseRAV(ts, i) == Err(UnclosedVariation)
  {
    MovetextFromAgrees(ts, i + 1, q, [], ms);
    assert ParseMovetext(ts, q, ms) == Ok((ms, q));
  }

  /** Parsing the text the writer produces gives the game back. */
  lemma ParseStringInvertsWriteGame(pairs: seq<(string, string)>, ms: seq<Move>, result: string, strict: bool)
    requires TextWritable(pairs, ms, result) && WritableGame(ms, result, strict)
    ensures ParseString(WriteGame(pairs, ms, result), strict) == Ok(Game(TagMap(pairs), ms, result))
  {
    var ts := WriteTokens(pairs, ms, result);
    WriteTokensLexable(pairs, ms, result);
    TokenizeInvertsRender(ts);
    ParseInvertsWrite(pairs, ms, result, strict);
  }
}
