/**
 * The grammar driver of chessnote.go: Parse, parseTagPair, parseMovetext,
 * parseRAV and isResult. The Go parser pulls tokens from the lexer one at a
 * time and keeps the current one in `p.tok`; here the tokens are a sequence
 * and the current token is the one at an index. Past the end of the sequence
 * the current token is EOF, as the lexer keeps returning EOF once it has
 * reached the end. The functional options become the flag `strict`.
 */
module Parser {
  import opened Results
  import opened Chars
  import opened Decimal
  import opened Tokens
  import opened Notation
  import opened Scanner

  datatype Game = Game(tags: map<string, string>, moves: seq<Move>, result: string)

  /** The error returns of the parser, one per distinct check. */
  datatype ParseError =
    | EofWithoutResult       // strict mode, EOF while moves are recorded
    | MissingResult          // strict mode, movetext not followed by a result
    | UnexpectedStart        // a token that cannot start or continue a game
    | BadTagKey              // `[` not followed by an identifier
    | BadTagValue            // tag key not followed by a string
    | UnclosedTag            // tag value not followed by `]`
    | InvalidMove            // an identifier the move decomposer rejects
    | NagBeforeMove          // a NAG before any move of the current sequence
    | InvalidNag             // a NAG literal Atoi rejects
    | VariationBeforeMove    // `(` before any move of the current sequence
    | UnexpectedInMovetext   // a token movetext has no rule for
    | UnclosedVariation      // variation movetext not followed by `)`

  const EmptyGame: Game := Game(map[], [], "")

  /** The current token at position i: past the end, EOF. */
  function Tok(ts: seq<Token>, i: nat): Token {
    if i < |ts| then ts[i] else EofToken
  }

  /** The four result literals a game can end with. */
  const ResultLiterals: set<string> := {"*", "1-0", "0-1", "1/2-1/2"}

  /** isResult: `*`, or an identifier spelling one of the three decisive or drawn results. */
  predicate IsResult(t: Token) {
    t.kind == Asterisk || (t.kind == Ident && (t.literal == "1-0" || t.literal == "0-1" || t.literal == "1/2-1/2"))
  }

  /** The tokens at which parseMovetext returns without error. */
  predicate EndsMovetext(t: Token) {
    t.kind == Eof || t.kind == Asterisk || t.kind == RParen || t.kind == LBracket || (t.kind == Ident && IsResult(t))
  }

  /** The literal of a result token is one of the four result literals, whatever the lexer made of it. */
  lemma ResultTokenLiteral(t: Token)
    requires IsResult(t) && t.kind == Ident
    ensures t.literal in ResultLiterals
  {
  }

  /** parseTagPair, at a `[`: key, value and `]`; the key is set to the value, replacing any earlier one. */
  function ParseTagPair(ts: seq<Token>, i: nat, tags: map<string, string>): (r: Result<(map<string, string>, nat), ParseError>)
    requires i < |ts| && ts[i].kind == LBracket
    ensures r.Ok? ==> r.value.1 == i + 4 <= |ts|
    ensures r.Ok? ==> r.value.0 == tags[ts[i + 1].literal := ts[i + 2].literal]
    ensures r.Ok? <==> Tok(ts, i + 1).kind == Ident && Tok(ts, i + 2).kind == Str && Tok(ts, i + 3).kind == RBracket
  {
    var key := Tok(ts, i + 1);
    if key.kind != Ident then Err(BadTagKey)
    else
      var value := Tok(ts, i + 2);
      if value.kind != Str then Err(BadTagValue)
      else if Tok(ts, i + 3).kind != RBracket then Err(UnclosedTag)
      else Ok((tags[key.literal := value.literal], i + 4))
  }

  /** The moves with the last one changed by f; parseMovetext edits the last move in place. */
  function UpdateLast(moves: seq<Move>, f: Move -> Move): (r: seq<Move>)
    requires |moves| > 0
    ensures |r| == |moves| && r[..|moves| - 1] == moves[..|moves| - 1] && r[|moves| - 1] == f(moves[|moves| - 1])
  {
    moves[..|moves| - 1] + [f(moves[|moves| - 1])]
  }

  /**
   * parseMovetext: reads moves into `moves` (NAGs and variations go to the
   * last move read so far) and returns at EOF, `*`, `)`, `[` or a result
   * identifier, with the position of that token.
   */
  function ParseMovetext(ts: seq<Token>, i: nat, moves: seq<Move>): (r: Result<(seq<Move>, nat), ParseError>)
    requires i <= |ts|
    ensures r.Ok? ==> i <= r.value.1 <= |ts| && EndsMovetext(Tok(ts, r.value.1))
    ensures r.Ok? ==> |moves| <= |r.value.0|
    decreases |ts| - i, 2
  {
    var t := Tok(ts, i);
    match t.kind
    case Eof => Ok((moves, i))
    case Asterisk => Ok((moves, i))
    case RParen => Ok((moves, i))
    case LBracket => Ok((moves, i))
    case Ident => if IsResult(t) then Ok((moves, i)) else MoveToken(ts, i, moves)
    case Nag => NagToken(ts, i, moves)
    case LParen => VariationToken(ts, i, moves)
    case Number => ParseMovetext(ts, i + 1, moves)
    case Dot => ParseMovetext(ts, i + 1, moves)
    case Comment => ParseMovetext(ts, i + 1, moves)
    case _ => Err(UnexpectedInMovetext)
  }

  /** The IDENT case of parseMovetext: a move, appended, or an error if the decomposer rejects it. */
  function MoveToken(ts: seq<Token>, i: nat, moves: seq<Move>): (r: Result<(seq<Move>, nat), ParseError>)
    requires i < |ts| && ts[i].kind == Ident
    ensures r.Ok? ==> i < r.value.1 <= |ts| && EndsMovetext(Tok(ts, r.value.1))
    ensures r.Ok? ==> |moves| < |r.value.0|
    decreases |ts| - i, 1
  {
    match ParseMoveFromRaw(ts[i].literal)
    case None => Err(InvalidMove)
    case Some(m) => ParseMovetext(ts, i + 1, moves + [m])
  }

  /** The NAG case of parseMovetext: the glyph's number is appended to the last move. */
  function NagToken(ts: seq<Token>, i: nat, moves: seq<Move>): (r: Result<(seq<Move>, nat), ParseError>)
    requires i < |ts| && ts[i].kind == Nag
    ensures r.Ok? ==> i < r.value.1 <= |ts| && EndsMovetext(Tok(ts, r.value.1))
    ensures r.Ok? ==> |moves| <= |r.value.0|
    decreases |ts| - i, 1
  {
    if |moves| == 0 then Err(NagBeforeMove)
    else
      match Atoi(ts[i].literal)
      case None => Err(InvalidNag)
      case Some(nag) => ParseMovetext(ts, i + 1, UpdateLast(moves, (m: Move) => m.(nags := m.nags + [nag])))
  }

  /** The `(` case of parseMovetext: the variation is attached to the last move. */
  function VariationToken(ts: seq<Token>, i: nat, moves: seq<Move>): (r: Result<(seq<Move>, nat), ParseError>)
    requires i < |ts| && ts[i].kind == LParen
    ensures r.Ok? ==> i < r.value.1 <= |ts| && EndsMovetext(Tok(ts, r.value.1))
    ensures r.Ok? ==> |moves| <= |r.value.0|
    decreases |ts| - i, 1
  {
    if |moves| == 0 then Err(VariationBeforeMove)
    else
      match ParseRAV(ts, i)
      case Err(e) => Err(e)
      case Ok((variation, j)) =>
        ParseMovetext(ts, j, UpdateLast(moves, (m: Move) => m.(variations := m.variations + [Variation(variation)])))
  }

  /** parseRAV, at a `(`: movetext into a fresh sequence, then a required `)`. */
  function ParseRAV(ts: seq<Token>, i: nat): (r: Result<(seq<Move>, nat), ParseError>)
    requires i < |ts| && ts[i].kind == LParen
    ensures r.Ok? ==> i + 2 <= r.value.1 <= |ts| && Tok(ts, r.value.1 - 1).kind == RParen
    decreases |ts| - i, 0
  {
    match ParseMovetext(ts, i + 1, [])
    case Err(e) => Err(e)
    case Ok((variation, j)) =>
      if Tok(ts, j).kind != RParen then Err(UnclosedVariation) else Ok((variation, j + 1))
  }

  /** Some token of ts from position i on is a result token spelled lit. */
  ghost predicate ResultAt(ts: seq<Token>, i: nat, lit: string) {
    exists k :: i <= k < |ts| && IsResult(ts[k]) && ts[k].literal == lit
  }

  /**
   * The loop of Parse from position i with the game built so far. Tags are
   * read until the movetext starts; the movetext is read once, and the game
   * ends with it.
   */
  function ParseGame(ts: seq<Token>, i: nat, g: Game, strict: bool): (r: Result<Game, ParseError>)
    requires i <= |ts|
    ensures r.Ok? ==> r.value.result == g.result || ResultAt(ts, i, r.value.result)
    decreases |ts| - i
  {
    var t := Tok(ts, i);
    match t.kind
    case Eof =>
      if strict && |g.moves| > 0 then Err(EofWithoutResult) else Ok(g)
    case LBracket =>
      if |g.moves| > 0 then Ok(g)
      else (
        match ParseTagPair(ts, i, g.tags)
        case Err(e) => Err(e)
        case Ok((tags, j)) => ParseGame(ts, j, g.(tags := tags), strict))
    case Comment => ParseGame(ts, i + 1, g, strict)
    case Ident => GameMovetext(ts, i, g, strict)
    case Number => GameMovetext(ts, i, g, strict)
    case _ => Err(UnexpectedStart)
  }

  /** The IDENT/NUMBER case of Parse: the movetext, then a result token or, in strict mode, an error. */
  function GameMovetext(ts: seq<Token>, i: nat, g: Game, strict: bool): (r: Result<Game, ParseError>)
    requires i <= |ts|
    ensures r.Ok? ==> r.value.tags == g.tags && |g.moves| <= |r.value.moves|
    ensures r.Ok? ==> r.value.result == g.result || ResultAt(ts, i, r.value.result)
    ensures r.Ok? && strict ==> ResultAt(ts, i, r.value.result)
  {
    match ParseMovetext(ts, i, g.moves)
    case Err(e) => Err(e)
    case Ok((moves, j)) =>
      var end := Tok(ts, j);
      if IsResult(end) then
        assert IsResult(ts[j]);
        Ok(g.(moves := moves, result := end.literal))
      else if strict then Err(MissingResult)
      else Ok(g.(moves := moves))
  }

  /** Parse: one game from the token sequence. */
  function Parse(ts: seq<Token>, strict: bool): (r: Result<Game, ParseError>)
    ensures r.Ok? ==> r.value.result == "" || ResultAt(ts, 0, r.value.result)
  {
    ParseGame(ts, 0, EmptyGame, strict)
  }

  const Bom: char := 0xFEFF as char

  /** ParseString: drop a leading byte order mark, lex, parse. */
  function ParseString(s: string, strict: bool): Result<Game, ParseError> {
    var text := if |s| > 0 && s[0] == Bom then s[1..] else s;
    Parse(Tokenize(text), strict)
  }

  /** Read from lexed text, a token is a result token exactly when it is `*` or an identifier spelling a result literal. */
  lemma LexedResultTokens(t: Token)
    requires Lexable(t)
    ensures IsResult(t) <==> (t.kind == Asterisk || t.kind == Ident) && t.literal in ResultLiterals
  {
  }

  /**
   * Over lexed tokens, the result of a game is empty or one of `*`, `1-0` and
   * `0-1`: the lexer splits `1/2-1/2` at the slash, so a drawn result is
   * never recorded.
   */
  lemma LexedParseResult(ts: seq<Token>, strict: bool)
    requires |ts| > 0 && AllLexable(ts[..|ts| - 1]) && ts[|ts| - 1] == EofToken
    ensures Parse(ts, strict).Ok? ==> Parse(ts, strict).value.result in {"", "*", "1-0", "0-1"}
  {
    var r := Parse(ts, strict);
    if r.Ok? && r.value.result != "" {
      LexedResultAt(ts, r.value.result);
    }
  }

  /** A result literal found among lexed tokens is `*`, `1-0` or `0-1`. */
  lemma LexedResultAt(ts: seq<Token>, lit: string)
    requires |ts| > 0 && AllLexable(ts[..|ts| - 1]) && ts[|ts| - 1] == EofToken
    requires ResultAt(ts, 0, lit)
    ensures lit in {"*", "1-0", "0-1"}
  {
    var k :| 0 <= k < |ts| && IsResult(ts[k]) && ts[k].literal == lit;
    assert k < |ts| - 1;
    assert ts[..|ts| - 1][k] == ts[k];
    LexedResultTokens(ts[k]);
  }

  lemma ParseStringResult(s: string, strict: bool)
    ensures ParseString(s, strict).Ok? ==> ParseString(s, strict).value.result in {"", "*", "1-0", "0-1"}
  {
    var text := if |s| > 0 && s[0] == Bom then s[1..] else s;
    TokenizeFromLexable(text, 0);
    LexedParseResult(Tokenize(text), strict);
  }

  /**
   * Parse with the two `len(game.Moves) > 0` guards removed. Moves are only
   * recorded by the movetext branch, which ends the game, so neither guard
   * can fire.
   */
  function ParseGameUnguarded(ts: seq<Token>, i: nat, g: Game, strict: bool): Result<Game, ParseError>
    requires i <= |ts|
    decreases |ts| - i
  {
    var t := Tok(ts, i);
    match t.kind
    case Eof => Ok(g)
    case LBracket =>
      (match ParseTagPair(ts, i, g.tags)
       case Err(e) => Err(e)
       case Ok((tags, j)) => ParseGameUnguarded(ts, j, g.(tags := tags), strict))
    case Comment => ParseGameUnguarded(ts, i + 1, g, strict)
    case Ident => GameMovetext(ts, i, g, strict)
    case Number => GameMovetext(ts, i, g, strict)
    case _ => Err(UnexpectedStart)
  }

  lemma {:induction false} GuardsNeverFire(ts: seq<Token>, i: nat, g: Game, strict: bool)
    requires i <= |ts| && g.moves == []
    ensures ParseGame(ts, i, g, strict) == ParseGameUnguarded(ts, i, g, strict)
    decreases |ts| - i
  {
    var t := Tok(ts, i);
    if t.kind == LBracket {
      var r := ParseTagPair(ts, i, g.tags);
      if r.Ok? {
        GuardsNeverFire(ts, r.value.1, g.(tags := r.value.0), strict);
      }
    } else if t.kind == Comment {
      GuardsNeverFire(ts, i + 1, g, strict);
    }
  }

  /** Parse agrees with the loop without its dead guards. */
  lemma ParseIsUnguarded(ts: seq<Token>, strict: bool)
    ensures Parse(ts, strict) == ParseGameUnguarded(ts, 0, EmptyGame, strict)
  {
    GuardsNeverFire(ts, 0, EmptyGame, strict);
  }

  /**
   * Strict mode changes one outcome only: where the movetext is not
   * followed by a result token, lax mode returns the game with an empty
   * result and strict mode reports MissingResult.
   */
  lemma {:induction false} StrictOnlyAddsMissingResult(ts: seq<Token>, i: nat, g: Game)
    requires i <= |ts| && g.moves == [] && g.result == ""
    ensures ParseGame(ts, i, g, true) == ParseGame(ts, i, g, false)
            || (ParseGame(ts, i, g, true) == Err(MissingResult)
                && ParseGame(ts, i, g, false).Ok? && ParseGame(ts, i, g, false).value.result == "")
    decreases |ts| - i
  {
    var t := Tok(ts, i);
    if t.kind == LBracket {
      var r := ParseTagPair(ts, i, g.tags);
      if r.Ok? {
        StrictOnlyAddsMissingResult(ts, r.value.1, g.(tags := r.value.0));
      }
    } else if t.kind == Comment {
      StrictOnlyAddsMissingResult(ts, i + 1, g);
    }
  }

  /** A game strict mode accepts is accepted unchanged in lax mode, and a lax game with a result is accepted in strict mode. */
  lemma StrictAndLax(ts: seq<Token>)
    ensures Parse(ts, true).Ok? ==> Parse(ts, false) == Parse(ts, true)
    ensures Parse(ts, false).Ok? && Parse(ts, false).value.result != "" ==> Parse(ts, true) == Parse(ts, false)
    ensures Parse(ts, true) != Parse(ts, false) ==> Parse(ts, true) == Err(MissingResult)
  {
    StrictOnlyAddsMissingResult(ts, 0, EmptyGame);
  }

  /** Move numbers, dots and comments, which parseMovetext steps over. */
  predicate Skippable(t: Token) {
    t.kind == Number || t.kind == Dot || t.kind == Comment
  }

  lemma {:induction false} MovetextSkips(ts: seq<Token>, i: nat, k: nat, moves: seq<Move>)
    requires i <= k <= |ts| && forall p :: i <= p < k ==> Skippable(ts[p])
    ensures ParseMovetext(ts, i, moves) == ParseMovetext(ts, k, moves)
    decreases k - i
  {
    if i < k {
      assert Skippable(ts[i]);
      MovetextSkips(ts, i + 1, k, moves);
    }
  }

  /**
   * A NAG or a `(` reached before any move of the sequence, with only move
   * numbers, dots and comments in between, is an error.
   */
  lemma AnnotationBeforeMove(ts: seq<Token>, i: nat, k: nat)
    requires i <= k < |ts| && forall p :: i <= p < k ==> Skippable(ts[p])
    ensures ts[k].kind == Nag ==> ParseMovetext(ts, i, []) == Err(NagBeforeMove)
    ensures ts[k].kind == LParen ==> ParseMovetext(ts, i, []) == Err(VariationBeforeMove)
  {
    MovetextSkips(ts, i, k, []);
  }

  /**
   * A result token inside a variation, with only move numbers, dots and
   * comments before it, ends the variation's movetext where parseRAV needs
   * a `)`: the variation fails, and so does the movetext that holds it.
   */
  lemma ResultInVariationFails(ts: seq<Token>, i: nat, k: nat, moves: seq<Move>)
    requires i < k < |ts| && ts[i].kind == LParen && IsResult(ts[k])
    requires forall p :: i < p < k ==> Skippable(ts[p])
    ensures ParseRAV(ts, i) == Err(UnclosedVariation)
    ensures |moves| > 0 ==> ParseMovetext(ts, i, moves) == Err(UnclosedVariation)
  {
    MovetextSkips(ts, i + 1, k, []);
  }

  /**
   * When the movetext stops at a `)` or a `[`, lax mode ends the game there
   * with the moves read and no result, and strict mode reports the missing
   * result.
   */
  lemma StrayCloserEndsGame(ts: seq<Token>, i: nat, g: Game)
    requires i <= |ts|
    ensures var r := ParseMovetext(ts, i, g.moves);
      r.Ok? && (Tok(ts, r.value.1).kind == RParen || Tok(ts, r.value.1).kind == LBracket) ==>
        GameMovetext(ts, i, g, false) == Ok(g.(moves := r.value.0)) && GameMovetext(ts, i, g, true) == Err(MissingResult)
  {
  }

  /**
   * b is a with more glyphs and variations possibly appended: all that
   * parseMovetext may do to a move it has already read.
   */
  predicate Extends(a: Move, b: Move) {
    b.(variations := a.variations, nags := a.nags) == a
    && |a.variations| <= |b.variations| && b.variations[..|a.variations|] == a.variations
    && |a.nags| <= |b.nags| && b.nags[..|a.nags|] == a.nags
  }

  /** b is a with moves appended and the last move of a extended. */
  predicate ExtendsMoves(a: seq<Move>, b: seq<Move>) {
    |a| <= |b| && (|a| > 0 ==> b[..|a| - 1] == a[..|a| - 1] && Extends(a[|a| - 1], b[|a| - 1]))
  }

  lemma ExtendsTransitive(a: Move, b: Move, c: Move)
    requires Extends(a, b) && Extends(b, c)
    ensures Extends(a, c)
  {
    assert c.variations[..|a.variations|] == c.variations[..|b.variations|][..|a.variations|];
    assert c.nags[..|a.nags|] == c.nags[..|b.nags|][..|a.nags|];
  }

  lemma ExtendsMovesTransitive(a: seq<Move>, b: seq<Move>, c: seq<Move>)
    requires ExtendsMoves(a, b) && ExtendsMoves(b, c)
    ensures ExtendsMoves(a, c)
  {
    if |a| > 0 {
      assert c[..|a| - 1] == c[..|b| - 1][..|a| - 1];
      assert b[..|a| - 1] == b[..|b| - 1][..|a| - 1];
      if |a| < |b| {
        assert c[|a| - 1] == c[..|b| - 1][|a| - 1];
      } else {
        ExtendsTransitive(a[|a| - 1], b[|a| - 1], c[|a| - 1]);
      }
    }
  }

  /** Appending a move or adding to the last one extends a move list. */
  lemma OneStepExtends(moves: seq<Move>, m: Move, nag: int, v: Variation)
    ensures ExtendsMoves(moves, moves + [m])
    ensures |moves| > 0 ==> ExtendsMoves(moves, UpdateLast(moves, (x: Move) => x.(nags := x.nags + [nag])))
    ensures |moves| > 0 ==> ExtendsMoves(moves, UpdateLast(moves, (x: Move) => x.(variations := x.variations + [v])))
  {
    if |moves| > 0 {
      assert (moves + [m])[..|moves| - 1] == moves[..|moves| - 1];
    }
  }

  /**
   * parseMovetext only appends: moves read before are kept, except that the
   * last one may gain glyphs and variations, each appended after its own.
   */
  lemma {:induction false} MovetextOnlyAppends(ts: seq<Token>, i: nat, moves: seq<Move>)
    requires i <= |ts|
    ensures ParseMovetext(ts, i, moves).Ok? ==> ExtendsMoves(moves, ParseMovetext(ts, i, moves).value.0)
    decreases |ts| - i, 1
  {
    var r := ParseMovetext(ts, i, moves);
    if r.Ok? {
      var t := Tok(ts, i);
      if t.kind == Ident && !IsResult(t) {
        MoveTokenAppends(ts, i, moves);
      } else if t.kind == Nag {
        NagTokenAppends(ts, i, moves);
      } else if t.kind == LParen {
        VariationTokenAppends(ts, i, moves);
      } else if Skippable(t) {
        MovetextOnlyAppends(ts, i + 1, moves);
      } else {
        assert ExtendsMoves(moves, moves);
      }
    }
  }

  lemma {:induction false} MoveTokenAppends(ts: seq<Token>, i: nat, moves: seq<Move>)
    requires i < |ts| && ts[i].kind == Ident && !IsResult(ts[i])
    ensures MoveToken(ts, i, moves).Ok? ==> ExtendsMoves(moves, MoveToken(ts, i, moves).value.0)
    decreases |ts| - i, 0
  {
    var r := MoveToken(ts, i, moves);
    if r.Ok? {
      var m := ParseMoveFromRaw(ts[i].literal).value;
      assert r == ParseMovetext(ts, i + 1, moves + [m]);
      OneStepExtends(moves, m, 0, Variation([]));
      MovetextOnlyAppends(ts, i + 1, moves + [m]);
      ExtendsMovesTransitive(moves, moves + [m], r.value.0);
    }
  }

  lemma {:induction false} NagTokenAppends(ts: seq<Token>, i: nat, moves: seq<Move>)
    requires i < |ts| && ts[i].kind == Nag
    ensures NagToken(ts, i, moves).Ok? ==> ExtendsMoves(moves, NagToken(ts, i, moves).value.0)
    decreases |ts| - i, 0
  {
    var r := NagToken(ts, i, moves);
    if r.Ok? {
      var nag := Atoi(ts[i].literal).value;
      var next := UpdateLast(moves, (x: Move) => x.(nags := x.nags + [nag]));
      assert r == ParseMovetext(ts, i + 1, next);
      OneStepExtends(moves, ZeroMove, nag, Variation([]));
      MovetextOnlyAppends(ts, i + 1, next);
      ExtendsMovesTransitive(moves, next, r.value.0);
    }
  }

  lemma {:induction false} VariationTokenAppends(ts: seq<Token>, i: nat, moves: seq<Move>)
    requires i < |ts| && ts[i].kind == LParen
    ensures VariationToken(ts, i, moves).Ok? ==> ExtendsMoves(moves, VariationToken(ts, i, moves).value.0)
    decreases |ts| - i, 0
  {
    var r := VariationToken(ts, i, moves);
    if r.Ok? {
      var rav := ParseRAV(ts, i).value;
      var next := UpdateLast(moves, (x: Move) => x.(variations := x.variations + [Variation(rav.0)]));
      assert r == ParseMovetext(ts, rav.1, next);
      OneStepExtends(moves, ZeroMove, 0, Variation(rav.0));
      MovetextOnlyAppends(ts, rav.1, next);
      ExtendsMovesTransitive(moves, next, r.value.0);
    }
  }
}
