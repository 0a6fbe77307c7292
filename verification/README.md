# chessnote PGN reader, modelled in Dafny

This project models the core of chessnote, a Go library that reads chess games
written in Portable Game Notation (PGN). The model covers:

- the scanner, which turns text into tokens (`Scanner`, over the character
  classes in `Chars` and Go's `strconv.Atoi` in `Decimal`);
- the grammar driver `Parse`, with `parseTagPair`, `parseMovetext`, `parseRAV`
  and `isResult` (`Parser`);
- the move decomposer `parseMoveFromRaw`, `parseCoreMove`, `parsePiece`,
  `parseDisambiguation` and `newSquare` (`Notation`);
- `ParseString`, which drops a leading byte order mark and parses (`Parser`);
- the SAN formatter `formatMoveToSAN`, `squareToString` and `pieceToChar` of the
  advanced iterator example (`San`);
- `SplitMultiGame`, which cuts a document into one string per game (`MultiGame`).

Everything is written as pure functions over `seq<char>`, `seq<Token>` and
datatypes. The scanner works on a string and an index, not on a reader. The
parser works on the token sequence the scanner delivers; a position past the
end reads as the end token, as the Go scanner returns EOF again once the input
is exhausted. The Go scanner's `read` returns the same rune for a NUL character
as at the end of the input, but a NUL is consumed and scanning goes on after it.

Each operation has a partner, and the two are tied by lemmas:

- The decomposer and the SAN formatter are inverses on the moves the formatter
  spells canonically (`San.ParseInvertsFormat`).
- The scanner inverts a renderer that writes one token per line
  (`Scanner.TokenizeInvertsRender`).
- The parser inverts a game writer (`Writer`), both at token level
  (`ReadBack.ParseInvertsWrite`) and at text level
  (`ReadBack.ParseStringInvertsWriteGame`).
- The read-back proofs run over a reader that is generic in the way moves are
  spelled (`Layout`).
- `SplitMultiGame` is tied to the Windows spelling of a text, to `strings.Join`
  and to a loop method written the way the Go code is.

After a promotion letter only an exact `+` or `#` is read as a suffix; any
other trailing text is ignored (chessnote.go:328-337,
`Notation.TrailingTextAfterPromotionIgnored`).

## Model

| member | source | states |
|---|---|---|
| Chars.FileIsExactlyAToH | internal/util/util.go:4-6 | a file character is exactly one of the eight letters `a`..`h`; `` ` ``, `i`, `A` and `H` are not files |
| Chars.RankIsExactlyOneToEight | internal/util/util.go:9-11 | a rank character is exactly one of the eight digits `1`..`8`; `0`, `9` and `a` are not ranks |
| Chars.WhitespaceIsExactlyBlanks | internal/util/util.go:14-16 | carriage return, vertical tab, form feed and no-break space are not blanks to the lexer, nor are letters or digits |
| Chars.LetterAndDigitRanges | internal/util/util.go:19-26 | both ends of the letter and digit ranges are included and their neighbours `` ` ``, `{`, `@`, `[`, `/` and `:` are not |
| Chars.ClassesNestAndAreDisjoint | internal/util/util.go:4-26 | files are letters and ranks are digits; letters, digits and whitespace are pairwise disjoint |
| Decimal.Atoi | scanner.go:90-92 | `strconv.Atoi` succeeds only on a sign or digit followed by digits, and only within the 64-bit range |
| Decimal.NatToStringValue | scanner.go:90-92 | the decimal spelling of n reads back as n |
| Decimal.AtoiInvertsNatToString | scanner.go:90-92 | `Atoi` reads back every 64-bit non-negative number from its decimal spelling |
| Decimal.AtoiInvertsIntToString | chessnote.go:238-242 | `Atoi` reads back every 64-bit integer, negative ones too, from its `strconv.Itoa` spelling |
| Notation.PieceSymbol | chessnote.go:86-92 | exactly the letters N, B, R, Q and K name a piece, and none of them names a pawn |
| Notation.PieceSymbolInjective | chessnote.go:86-92 | no two letters name the same piece |
| Notation.NewSquare | chessnote.go:466-474 | a square is read from exactly two characters, a file then a rank, and lies on the board |
| Notation.NewSquareInvertsSquareName | chessnote.go:466-474 | reading the name of a board square gives the square back |
| Notation.SquareNameInvertsNewSquare | chessnote.go:466-474 | naming a square that was read gives the text back |
| Notation.ParsePiece | chessnote.go:431-438 | the piece is a pawn iff the text does not start with a piece letter; otherwise that letter is consumed |
| Notation.ParseDisambiguation | chessnote.go:440-464 | at most one file or rank character is consumed, and the origin records only that coordinate |
| Notation.ParseCoreMove | chessnote.go:381-429 | an accepted core move ends in its target square, has at most one origin coordinate, and carries no suffix, promotion, castling, glyphs or variations |
| Notation.PawnCaptureShortcutAgrees | chessnote.go:384-395 | the four-character pawn-capture shortcut reads the same move as the general path does |
| Notation.GeneralCoreReadsParts | chessnote.go:397-428 | the general path reads every well-formed piece/origin/capture/target spelling as its move |
| Notation.GeneralCoreOnlyParts | chessnote.go:397-428 | the general path accepts nothing except such spellings |
| Notation.ParseCoreMoveExactly | chessnote.go:381-429 | a core move is read from a text iff the text spells that move's parts |
| Notation.CaptureIffX | chessnote.go:384-421 | an accepted core move is a capture iff its text holds an `x` |
| Notation.IndexOf | chessnote.go:314 | `strings.Index` finds the first occurrence of a character, or none when it is absent |
| Notation.ParseMoveFromRaw | chessnote.go:306-378 | an accepted move is not both check and mate, is not both castlings, and has board squares; promotion, check and mate are only read from `=`, `+` and `#` in the text |
| Notation.PromotionRules | chessnote.go:314-339 | with an `=` the move is read iff a piece letter follows and the text before it is a move; check or mate only when exactly `+` or `#` follows the letter |
| Notation.PromotedText | chessnote.go:314-339 | core, `=`, letter and suffix read as the core move with that promotion and the suffix's check or mate |
| Notation.TrailingTextAfterPromotionIgnored | chessnote.go:328-337 | text after the promotion letter other than `+` or `#` is ignored |
| Notation.CheckAndMateSuffixes | chessnote.go:341-348 | without `=`, a final `+` or `#` sets check or mate and is stripped before the core is read |
| Notation.CastlingCores | chessnote.go:355-363 | `O-O` and `O-O-O` read as king moves with the castling flag and zero squares |
| San.Int32Wrap | examples/advanced_iterator/main.go:100-108 | Go's int-to-rune conversion keeps the value modulo 2^32 in the signed 32-bit range |
| San.PieceToChar | examples/advanced_iterator/main.go:133-148 | a pawn is written as nothing, every other piece as one character |
| San.PieceToCharInvertsPieceSymbol | examples/advanced_iterator/main.go:133-148 | the letter written for a piece is the letter the decomposer reads as that piece |
| San.SquareToStringRoundTrips | examples/advanced_iterator/main.go:129-131 | on the board, `squareToString` writes the name the decomposer reads back |
| San.CheckText | examples/advanced_iterator/main.go:120-124 | the mark is `#` iff mate, `+` iff check without mate, nothing otherwise |
| San.FormatMoveToSAN | examples/advanced_iterator/main.go:83-89 | castling moves are written `O-O` and `O-O-O` |
| San.PawnCaptureWritesOriginFile | examples/advanced_iterator/main.go:106-111 | a pawn capture with nothing written before it writes its origin file, then `x` |
| San.ZeroDisambiguationNotWritten | examples/advanced_iterator/main.go:93-118 | a zero origin is not written; otherwise the move is piece, capture mark, target, promotion and check mark |
| San.PromotionAndCheckMarks | examples/advanced_iterator/main.go:115-124 | the written move holds `=` iff it promotes, and ends in `#` iff mate and in `+` iff check without mate |
| San.ReadFormattedBody | examples/advanced_iterator/main.go:93-113 | the written body of a canonical move reads back as that move without its suffixes |
| San.ParseInvertsFormat | examples/advanced_iterator/main.go:83-127 | the decomposer reads every canonically written move back as the same move |
| Scanner.SpanWhile | scanner.go:61-72 | a scanning loop stops at the first character that fails its test, having passed only characters that pass |
| Scanner.ScanIdent | scanner.go:77-94 | an identifier run is read up to the first character that is not an identifier character, as a number iff `Atoi` accepts it |
| Scanner.ScanDelimited | scanner.go:96-130 | a string or comment body stops at its closing character or at NUL, and the closing character is consumed |
| Scanner.ScanNag | scanner.go:132-143 | a glyph is the run of digits after `$`, and the first non-digit is left unread |
| Scanner.ScanNonBlank | scanner.go:33-58 | the scan ends exactly at the end of the text or at a NUL character, which is consumed |
| Scanner.Scan | scanner.go:22-59 | every scan makes progress unless it reports the end |
| Scanner.Tokenize | scanner.go:22-59 | the token stream ends with the end token |
| Scanner.TokenizeFromStopsAtFirstEof | scanner.go:34-35 | no end token appears before the last one |
| Scanner.TokenizeFromLexable | scanner.go:22-143 | every token the scanner delivers is one the renderer can write |
| Scanner.ScanSkipsBlanks | scanner.go:61-75 | leading whitespace does not change the next token |
| Scanner.ScanLiteralsAreMaximalRuns | scanner.go:77-143 | identifier, string and glyph literals are exactly the maximal runs the loops read |
| Scanner.EndOfInputIsSticky | scanner.go:145-157 | at the end of the text and at a NUL character the scanner reports the end |
| Scanner.DrawMarkerIsNeverOneIdent | scanner.go:77-94 | `1/2-1/2` is never scanned as one identifier, since `/` ends an identifier |
| Scanner.ScanReadsTokenText | scanner.go:22-143 | each token's written text, followed by a newline, scans back as that token |
| Scanner.TokenizeFromAfterScan | scanner.go:22-75 | after one token and any whitespace, tokenizing resumes where the next token starts |
| Scanner.ReadRendering | scanner.go:22-75 | a reader that takes one token per rendered line reads a rendering back as its tokens |
| Scanner.TokenizeInvertsRender | scanner.go:22-143 | tokenizing a rendered token sequence gives the tokens back, then the end token |
| Parser.ResultTokenLiteral | chessnote.go:283-291 | a result identifier is one of the three result literals |
| Parser.ParseTagPair | chessnote.go:197-217 | a tag pair is read iff identifier, string and `]` follow `[`; it sets that key to that value |
| Parser.UpdateLast | chessnote.go:237-246 | only the last move is changed |
| Parser.ParseMovetext | chessnote.go:219-262 | movetext stops only at a token that ends it, and the move list never gets shorter |
| Parser.ParseRAV | chessnote.go:264-281 | a variation is read only when closed by `)` |
| Parser.ParseGame | chessnote.go:153-195 | a game's result is either unchanged or a result token read from the input |
| Parser.GameMovetext | chessnote.go:178-190 | after movetext the tags are kept, no move is lost, and in strict mode a result token is required |
| Parser.Parse | chessnote.go:153-195 | a parsed game's result is empty or a result token of the input |
| Parser.LexedResultTokens | chessnote.go:283-291 | on scanned tokens, a token is a result iff it is `*` or an identifier spelling a result |
| Parser.ParseStringResult | chessnote.go:480-486 | a game parsed from text has no result, `*`, `1-0` or `0-1`; the draw marker never reaches the parser whole |
| Parser.GuardsNeverFire | chessnote.go:163-172 | the checks for recorded moves at the end and at `[` never fire, since movetext always returns |
| Parser.ParseIsUnguarded | chessnote.go:153-195 | Parse equals the same loop without those checks |
| Parser.StrictOnlyAddsMissingResult | chessnote.go:186-189 | strict and lax parsing agree except that strict rejects a movetext without a result |
| Parser.StrictAndLax | chessnote.go:95-113 | a strict success is a lax success; a lax game with a result is a strict game; otherwise strict fails for a missing result |
| Parser.MovetextSkips | chessnote.go:248-249 | move numbers, dots and comments in movetext are skipped |
| Parser.AnnotationBeforeMove | chessnote.go:233-253 | a glyph or a variation before the first move is an error |
| Parser.MovetextOnlyAppends | chessnote.go:219-262 | movetext only appends moves, glyphs and variations; earlier moves are kept |
| Parser.ResultInVariationFails | chessnote.go:222-227 | a result token inside a variation, after only move numbers, dots and comments, fails the variation and the movetext holding it for lack of `)` |
| Parser.StrayCloserEndsGame | chessnote.go:184-190 | when movetext stops at `)` or `[`, lax mode ends the game with the moves read and no result, and strict mode reports the missing result |
| Parser.ExtendsMovesTransitive | chessnote.go:219-262 | appending twice is appending |
| Writer.TagMapLastWins | chessnote.go:197-217 | the tag map holds exactly the written keys, and a repeated key keeps its last value |
| Writer.ResultTokens | chessnote.go:283-291 | an empty result writes nothing; a result literal writes one result token |
| Writer.SanLexable | chessnote.go:224-232 | every canonically written move is one identifier token the scanner can read |
| Writer.WriteTokensLexable | scanner.go:22-143 | every token the writer produces can be rendered and read back |
| Writer.WriteGame | chessnote.go:480-486 | the written text never starts with a byte order mark |
| Layout.ReadMoves | chessnote.go:219-262 | a movetext reader reads written moves one after another, for any spelling of moves |
| Layout.ReadMove | chessnote.go:224-257 | one move is read with its glyphs and variations |
| Layout.ReadGlyphs | chessnote.go:233-247 | each written glyph is appended to the last move |
| Layout.ReadVariations | chessnote.go:250-257 | each written variation is appended to the last move |
| Layout.ReadVariation | chessnote.go:264-281 | `(`, moves and `)` are read as one variation of the last move |
| Layout.MovesTokensWithin | chessnote.go:219-262 | every token of written moves has the property the spelling promises |
| ReadBack.ResultsAreNotMoves | chessnote.go:306-429 | the decomposer rejects `1-0`, `0-1` and `1/2-1/2` |
| ReadBack.SanIsNotResult | chessnote.go:283-291 | a written move is never a result token |
| ReadBack.NagStep | chessnote.go:233-247 | a glyph token adds its value to the last move |
| ReadBack.MoveStep | chessnote.go:224-232 | a written move token appends the move |
| ReadBack.VariationStep | chessnote.go:250-257 | a closed variation is appended to the last move |
| ReadBack.PgnIsRead | chessnote.go:219-281 | the parser reads the writer's spelling of moves, glyphs and variations |
| ReadBack.ReadTags | chessnote.go:167-175 | written tag pairs are read one after another into the tag map |
| ReadBack.ReadEmptyMovetext | chessnote.go:158-166 | a game without moves reads back with its result: none, `1-0` or `0-1` |
| ReadBack.FinishGame | chessnote.go:178-190 | after movetext, a result token becomes the result; none is accepted only in lax mode |
| ReadBack.ReadGame | chessnote.go:153-195 | tags, movetext and result written in order are read back as the same game |
| ReadBack.ParseInvertsWrite | chessnote.go:153-195 | Parse reads the writer's tokens back as the same game, in strict and lax mode |
| ReadBack.StarWithoutMovesRejected | chessnote.go:191-192 | a game whose first token after the tags is `*` is rejected |
| ReadBack.StrictWithoutResultRejected | chessnote.go:186-189 | in strict mode, moves without a result are rejected |
| ReadBack.StrayCloserAfterMoves | chessnote.go:184-190 | a `)` or `[` right after written moves ends a lax game with those moves and no result, and is rejected in strict mode |
| ReadBack.ResultEndsWrittenVariation | chessnote.go:264-273 | a variation whose written moves are followed by a result token instead of `)` fails |
| ReadBack.ParseStringInvertsWriteGame | chessnote.go:480-486 | ParseString reads the written text of a game back as the same game |
| MultiGame.TrimSpace | pgn.go:21 | `strings.TrimSpace` leaves no space at either end |
| MultiGame.TrimSpaceCutsSpaces | pgn.go:21 | the trimmed text is a slice of the input, and only spaces are cut around it |
| MultiGame.TrimSpaceEmpty | pgn.go:24-27 | text trims to nothing iff it is all space |
| MultiGame.TrimSpaceIgnoresTrailingSpaces | pgn.go:30-31 | spaces after the text, such as the final newline, do not change the trimmed text |
| MultiGame.TrimSpaceIdempotent | pgn.go:21 | trimming twice is trimming once |
| MultiGame.LexerBlanksAreSpaces | pgn.go:21 | every blank the lexer skips is a space to `strings.TrimSpace`; among ASCII characters TrimSpace also strips exactly carriage return, vertical tab and form feed |
| MultiGame.NormalizeInvertsWithCrlf | pgn.go:14-15 | normalising undoes writing every newline as `\r\n` |
| MultiGame.NormalizeWithoutCr | pgn.go:14-15 | text without a carriage return is left unchanged |
| MultiGame.NormalizeConcat | pgn.go:14-15 | normalisation works piecewise when the first piece does not end in `\r` |
| MultiGame.JoinInvertsSplit | pgn.go:18 | joining the lines with newlines gives the text back |
| MultiGame.SplitAtNewline | pgn.go:18 | splitting text joined at a newline gives the lines of both sides |
| MultiGame.Flush | pgn.go:24-27 | only non-empty trimmed games are kept |
| MultiGame.FeedAll | pgn.go:20-32 | the loop only ever adds non-empty trimmed games |
| MultiGame.SplitMultiGame | pgn.go:13-41 | every game returned is non-empty and trimmed |
| MultiGame.SplitMultiGameLoop | pgn.go:13-41 | the loop as written returns exactly the games of the fold, all non-empty and trimmed |
| MultiGame.FeedPlainLines | pgn.go:30-31 | lines that start no game are added to the current game with their newlines |
| MultiGame.FirstLineOpens | pgn.go:22 | the first line never closes a game, since nothing has been read |
| MultiGame.BlankInputHasNoGames | pgn.go:34-40 | empty or all-space input gives no game |
| MultiGame.OneGameWithoutLaterEvent | pgn.go:20-38 | when no later line starts a game, the result is the whole normalised text trimmed, or nothing if that is blank |
| MultiGame.FeedAllKeepsEarlierGames | pgn.go:20-32 | the games found so far stay in front, in order |
| MultiGame.SplitAtGameStart | pgn.go:22-29 | an `[Event ` line after text starts a new game: the games of the whole are those before it followed by those from it on |
| MultiGame.CrlfSplitsAlike | pgn.go:14-15 | a text and its Windows spelling split into the same games |

## Left out

- Readers, `bufio` and UTF-8 decoding: the scanner reads a `string` of characters by index. An invalid UTF-8 byte that Go decodes as U+FFFD is not modelled.
- Parser options: `WithLaxParsing` and the configuration struct become the `strict` flag; strict is the default, as in `NewParser`.
- Error messages: each `fmt.Errorf` is a `ParseError` value. The message text and the offending token are not kept.
- Recursion depth and stack use of nested variations; memory and speed; the benchmarks.
- `main` and `printMoveTree` of the advanced iterator example, and the other examples: they only print.
- Go's nil versus empty slices for `Moves`, `NAGs` and `Variations`: both are the empty sequence.
- The draw marker `1/2-1/2` is cut by the scanner at `/`, so it never reaches `isResult` as one token. The model keeps this (`Scanner.DrawMarkerIsNeverOneIdent`), and the writer only writes `*`, `1-0` and `0-1`.
- Writer.WriteGame: the game writer is the model's own partner of the parser, not part of the library. At text level it writes only non-negative glyphs, because `$` followed by `-` does not scan as a glyph.
- Piece types: Go's `PieceType` is an `int`, and `pieceToChar` writes nothing for a value outside the six pieces. The model's piece type has exactly the six pieces, since the parser never produces any other value.
- MultiGame.TrimSpace: the space set is the one `unicode.IsSpace` uses; nothing else about Unicode is modelled.
