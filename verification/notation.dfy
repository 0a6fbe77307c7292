/**
 * The game records of chessnote.go (Square, PieceType, Move) and the move
 * decomposer that turns one SAN identifier such as `Rdxf8=Q+` into a Move:
 * parseMoveFromRaw, parseCoreMove, parsePiece, parseDisambiguation and
 * newSquare. The decomposer is only ever given identifier literals, which are
 * ASCII, so indexing the Go string by byte and the model's string by
 * character agree.
 */
module Notation {
  import opened Results
  import opened Chars

  datatype PieceType = Pawn | Knight | Bishop | Rook | Queen | King

  /** File 0..7 stands for a..h and rank 0..7 for 1..8; the Go fields are plain ints. */
  datatype Square = Square(file: int, rank: int)

  /**
   * One move of a game, with the variations that were given as alternatives to
   * it and its numeric annotation glyphs. Go's `[][]Move` becomes a sequence of
   * Variation records.
   */
  datatype Move = Move(
    from: Square,
    to: Square,
    piece: PieceType,
    promotion: PieceType,
    isCapture: bool,
    isCheck: bool,
    isMate: bool,
    isKingsideCastle: bool,
    isQueensideCastle: bool,
    variations: seq<Variation>,
    nags: seq<int>)

  datatype Variation = Variation(moves: seq<Move>)

  const ZeroSquare: Square := Square(0, 0)

  /** Go's zero value `Move{}`. */
  const ZeroMove: Move := Move(ZeroSquare, ZeroSquare, Pawn, Pawn, false, false, false, false, false, [], [])

  predicate OnBoard(sq: Square) {
    0 <= sq.file < 8 && 0 <= sq.rank < 8
  }

  /** The letters of PieceSymbols. */
  const PieceLetters: set<char> := {'N', 'B', 'R', 'Q', 'K'}

  /** PieceSymbols: the piece a SAN letter names; pawns have no letter. */
  function PieceSymbol(c: char): (r: Option<PieceType>)
    ensures r.Some? <==> c in PieceLetters
    ensures r.Some? ==> r.value != Pawn
  {
    match c
    case 'N' => Some(Knight)
    case 'B' => Some(Bishop)
    case 'R' => Some(Rook)
    case 'Q' => Some(Queen)
    case 'K' => Some(King)
    case _ => None
  }

  /** Distinct letters name distinct pieces. */
  lemma PieceSymbolInjective(a: char, b: char)
    requires PieceSymbol(a).Some? && PieceSymbol(a) == PieceSymbol(b)
    ensures a == b
  {
  }

  /** The two characters naming an on-board square, such as `e4`. */
  function SquareName(sq: Square): (s: string)
    requires OnBoard(sq)
    ensures |s| == 2 && IsFile(s[0]) && IsRank(s[1])
  {
    [('a' as int + sq.file) as char, ('1' as int + sq.rank) as char]
  }

  /** newSquare: a file letter and a rank digit, and nothing else. */
  function NewSquare(s: string): (r: Option<Square>)
    ensures r.Some? <==> |s| == 2 && IsFile(s[0]) && IsRank(s[1])
    ensures r.Some? ==> OnBoard(r.value)
  {
    if |s| != 2 || !IsFile(s[0]) || !IsRank(s[1]) then None
    else Some(Square(s[0] as int - 'a' as int, s[1] as int - '1' as int))
  }

  /** Naming a square and reading the name back gives the square. */
  lemma NewSquareInvertsSquareName(sq: Square)
    requires OnBoard(sq)
    ensures NewSquare(SquareName(sq)) == Some(sq)
  {
  }

  /** Reading a square and naming it gives back the text. */
  lemma SquareNameInvertsNewSquare(s: string)
    requires NewSquare(s).Some?
    ensures SquareName(NewSquare(s).value) == s
  {
    assert SquareName(NewSquare(s).value) == [s[0], s[1]];
  }

  /** parsePiece: a leading piece letter is consumed; otherwise the piece is a pawn and nothing is consumed. */
  function ParsePiece(text: string): (r: (string, PieceType))
    ensures r.1 == Pawn <==> |text| == 0 || text[0] !in PieceLetters
    ensures r.1 == Pawn ==> r.0 == text
    ensures r.1 != Pawn ==> PieceSymbol(text[0]) == Some(r.1) && r.0 == text[1..]
  {
    if |text| > 0 && PieceSymbol(text[0]).Some? then (text[1..], PieceSymbol(text[0]).value)
    else (text, Pawn)
  }

  /**
   * parseDisambiguation: one leading file letter sets the origin file, one
   * leading rank digit sets the origin rank; anything else is left alone.
   */
  function ParseDisambiguation(text: string): (r: (string, Square))
    ensures OnBoard(r.1) && (r.1.file == 0 || r.1.rank == 0)
    ensures r.0 == text || (|text| > 0 && (IsFile(text[0]) || IsRank(text[0])) && r.0 == text[1..])
    ensures r.0 == text ==> r.1 == ZeroSquare
  {
    if |text| == 0 then (text, ZeroSquare)
    else if text[0] == 'x' then (text, ZeroSquare)
    else if IsFile(text[0]) then (text[1..], Square(text[0] as int - 'a' as int, 0))
    else if IsRank(text[0]) then (text[1..], Square(0, text[0] as int - '1' as int))
    else (text, ZeroSquare)
  }

  /** The general path of parseCoreMove: destination, piece, disambiguation, `x`, and nothing left over. */
  function GeneralCore(raw: string): (r: Option<Move>)
  {
    if |raw| < 2 then None
    else
      match NewSquare(raw[|raw| - 2..])
      case None => None
      case Some(dest) =>
        var (afterPiece, piece) := ParsePiece(raw[..|raw| - 2]);
        var (afterFrom, from) := ParseDisambiguation(afterPiece);
        var capture := |afterFrom| > 0 && afterFrom[0] == 'x';
        var rest := if capture then afterFrom[1..] else afterFrom;
        if |rest| > 0 then None
        else Some(ZeroMove.(to := dest, piece := piece, from := from, isCapture := capture))
  }

  /** The four-character shape that parseCoreMove reads as a pawn capture before trying the general path. */
  predicate PawnCaptureShape(raw: string) {
    |raw| == 4 && IsFile(raw[0]) && raw[1] == 'x'
  }

  /** parseCoreMove: the pawn-capture shortcut, then the general path. */
  function ParseCoreMove(raw: string): (r: Option<Move>)
    ensures r.Some? ==> OnBoard(r.value.from) && OnBoard(r.value.to)
    ensures r.Some? ==> r.value.from.file == 0 || r.value.from.rank == 0
    ensures r.Some? ==> !r.value.isCheck && !r.value.isMate && r.value.promotion == Pawn
    ensures r.Some? ==> !r.value.isKingsideCastle && !r.value.isQueensideCastle
    ensures r.Some? ==> r.value.variations == [] && r.value.nags == []
    ensures r.Some? ==> |raw| >= 2 && NewSquare(raw[|raw| - 2..]) == Some(r.value.to)
  {
    if PawnCaptureShape(raw) then
      match NewSquare(raw[2..])
      case None => None
      case Some(dest) =>
        Some(ZeroMove.(piece := Pawn, from := Square(raw[0] as int - 'a' as int, 0), to := dest, isCapture := true))
    else GeneralCore(raw)
  }

  /** The shortcut is only a shortcut: it gives exactly what the general path gives on the same text. */
  lemma PawnCaptureShortcutAgrees(raw: string)
    ensures ParseCoreMove(raw) == GeneralCore(raw)
  {
    if PawnCaptureShape(raw) {
      assert raw[|raw| - 2..] == raw[2..];
      var prefix := raw[..|raw| - 2];
      assert prefix == [raw[0], 'x'];
      assert ParsePiece(prefix) == (prefix, Pawn);
      assert ParseDisambiguation(prefix).0 == ['x'];
    }
  }

  /**
   * The pieces of a core move text: an optional piece letter, an optional
   * disambiguation character, an optional `x`, then the destination file and
   * rank.
   */
  datatype CoreParts = CoreParts(letter: Option<char>, disamb: Option<char>, capture: bool, file: char, rank: char)

  predicate WellFormedParts(p: CoreParts) {
    (p.letter.Some? ==> p.letter.value in PieceLetters)
    && (p.disamb.Some? ==> IsFile(p.disamb.value) || IsRank(p.disamb.value))
    && IsFile(p.file) && IsRank(p.rank)
  }

  function OptionText(c: Option<char>): string {
    if c.Some? then [c.value] else []
  }

  /** The text the parts spell, such as `N` + `b` + `x` + `d7`. */
  function CoreText(p: CoreParts): string {
    OptionText(p.letter) + OptionText(p.disamb) + (if p.capture then "x" else "") + [p.file, p.rank]
  }

  /** The move the parts describe. */
  function PartsMove(p: CoreParts): Move
    requires WellFormedParts(p)
  {
    var from :=
      if p.disamb.None? then ZeroSquare
      else if IsFile(p.disamb.value) then Square(p.disamb.value as int - 'a' as int, 0)
      else Square(0, p.disamb.value as int - '1' as int);
    ZeroMove.(
      to := Square(p.file as int - 'a' as int, p.rank as int - '1' as int),
      piece := if p.letter.Some? then PieceSymbol(p.letter.value).value else Pawn,
      from := from,
      isCapture := p.capture)
  }

  lemma GeneralCoreReadsParts(p: CoreParts)
    requires WellFormedParts(p)
    ensures GeneralCore(CoreText(p)) == Some(PartsMove(p))
  {
    var raw := CoreText(p);
    var prefix := OptionText(p.letter) + OptionText(p.disamb) + (if p.capture then "x" else "");
    assert raw == prefix + [p.file, p.rank];
    assert raw[|raw| - 2..] == [p.file, p.rank];
    assert raw[..|raw| - 2] == prefix;
    var afterLetter := OptionText(p.disamb) + (if p.capture then "x" else "");
    if p.letter.Some? {
      assert prefix == [p.letter.value] + afterLetter;
      assert prefix[1..] == afterLetter;
    } else {
      assert prefix == afterLetter;
      if |afterLetter| > 0 {
        assert afterLetter[0] !in PieceLetters;
      }
    }
    assert ParsePiece(prefix).0 == afterLetter;
    var tail := if p.capture then "x" else "";
    if p.disamb.Some? {
      assert afterLetter == [p.disamb.value] + tail;
      assert afterLetter[1..] == tail;
    } else {
      assert afterLetter == tail;
    }
    assert ParseDisambiguation(afterLetter).0 == tail;
  }

  /** Every text the general path accepts is spelled by parts, and it reads as the move they describe. */
  lemma GeneralCoreOnlyParts(raw: string)
    requires GeneralCore(raw).Some?
    ensures exists p :: WellFormedParts(p) && CoreText(p) == raw && PartsMove(p) == GeneralCore(raw).value
  {
    var n := |raw|;
    var prefix := raw[..n - 2];
    var (afterPiece, piece) := ParsePiece(prefix);
    var (afterFrom, from) := ParseDisambiguation(afterPiece);
    var capture := |afterFrom| > 0 && afterFrom[0] == 'x';
    var letter := if piece != Pawn then Some(prefix[0]) else None;
    var disamb := if afterFrom != afterPiece then Some(afterPiece[0]) else None;
    var p := CoreParts(letter, disamb, capture, raw[n - 2], raw[n - 1]);
    assert afterFrom == (if capture then "x" else "");
    assert afterPiece == OptionText(disamb) + afterFrom;
    assert prefix == OptionText(letter) + afterPiece;
    var tail := if capture then "x" else "";
    assert raw == prefix + raw[n - 2..];
    assert raw[n - 2..] == [p.file, p.rank];
    assert OptionText(letter) + OptionText(disamb) + tail == OptionText(letter) + (OptionText(disamb) + tail);
    assert CoreText(p) == prefix + [p.file, p.rank];
    GeneralCoreReadsParts(p);
  }

  /**
   * parseCoreMove accepts exactly the texts spelled by well-formed parts, and
   * reads each as the move its parts describe.
   */
  lemma ParseCoreMoveExactly(raw: string, m: Move)
    ensures ParseCoreMove(raw) == Some(m) <==> exists p :: WellFormedParts(p) && CoreText(p) == raw && PartsMove(p) == m
  {
    PawnCaptureShortcutAgrees(raw);
    if ParseCoreMove(raw) == Some(m) {
      GeneralCoreOnlyParts(raw);
    }
    if exists p :: WellFormedParts(p) && CoreText(p) == raw && PartsMove(p) == m {
      var p :| WellFormedParts(p) && CoreText(p) == raw && PartsMove(p) == m;
      GeneralCoreReadsParts(p);
    }
  }

  /** The text of well-formed parts holds an `x` exactly when the parts mark a capture. */
  lemma PartsTextHasX(p: CoreParts)
    requires WellFormedParts(p)
    ensures 'x' in CoreText(p) <==> p.capture
  {
    var pre := OptionText(p.letter) + OptionText(p.disamb);
    var mid: string := if p.capture then "x" else "";
    assert CoreText(p) == pre + mid + [p.file, p.rank];
    assert 'x' !in pre;
    assert 'x' !in [p.file, p.rank];
  }

  /** The text of well-formed parts holds no `=` and ends with the rank digit. */
  lemma PartsTextShape(p: CoreParts)
    requires WellFormedParts(p)
    ensures '=' !in CoreText(p) && |CoreText(p)| >= 2 && CoreText(p)[|CoreText(p)| - 1] == p.rank
  {
    var pre := OptionText(p.letter) + OptionText(p.disamb);
    var mid: string := if p.capture then "x" else "";
    assert CoreText(p) == pre + mid + [p.file, p.rank];
    assert '=' !in pre;
  }

  /** A capture flag comes only from an `x` in the text, and an `x` is always read as a capture. */
  lemma CaptureIffX(raw: string)
    requires ParseCoreMove(raw).Some?
    ensures ParseCoreMove(raw).value.isCapture <==> 'x' in raw
  {
    var m := ParseCoreMove(raw).value;
    ParseCoreMoveExactly(raw, m);
    var p :| WellFormedParts(p) && CoreText(p) == raw && PartsMove(p) == m;
    PartsTextHasX(p);
  }

  /** The first position of c in s (strings.Index for one character). */
  function IndexOf(s: string, c: char): (r: Option<nat>)
    ensures r.None? <==> c !in s
    ensures r.Some? ==> r.value < |s| && s[r.value] == c && c !in s[..r.value]
  {
    if |s| == 0 then None
    else if s[0] == c then Some(0)
    else
      match IndexOf(s[1..], c)
      case None => None
      case Some(k) =>
        assert s[..k + 1] == [s[0]] + s[1..][..k];
        Some(k + 1)
  }

  /** The moves `O-O` and `O-O-O` decode to. */
  const KingsideCastle: Move := ZeroMove.(piece := King, isKingsideCastle := true)
  const QueensideCastle: Move := ZeroMove.(piece := King, isQueensideCastle := true)

  /** The castling cores, then parseCoreMove. */
  function CastleOrCore(core: string): (r: Option<Move>)
    ensures r.Some? ==> !(r.value.isKingsideCastle && r.value.isQueensideCastle)
    ensures r.Some? ==> OnBoard(r.value.from) && OnBoard(r.value.to)
    ensures r.Some? ==> r.value.variations == [] && r.value.nags == []
  {
    if core == "O-O" then Some(KingsideCastle)
    else if core == "O-O-O" then Some(QueensideCastle)
    else ParseCoreMove(core)
  }

  /** Step 4 of parseMoveFromRaw: the check, mate and promotion found in step 1 or 2 replace the core's. */
  function WithSuffix(core: Option<Move>, check: bool, mate: bool, promotion: PieceType): (r: Option<Move>)
    ensures r.Some? <==> core.Some?
    ensures r.Some? ==> r.value == core.value.(isCheck := check, isMate := mate, promotion := promotion)
  {
    match core
    case None => None
    case Some(m) => Some(m.(isCheck := check, isMate := mate, promotion := promotion))
  }

  /**
   * parseMoveFromRaw. With an `=`, the letter after the first `=` is the
   * promotion, and the text after that letter sets check when it is exactly
   * `+`, mate when it is exactly `#`, and is ignored otherwise. Without one,
   * a single trailing `+` or `#` is stripped.
   */
  function ParseMoveFromRaw(raw: string): (r: Option<Move>)
    ensures r.Some? ==> !(r.value.isCheck && r.value.isMate)
    ensures r.Some? ==> !(r.value.isKingsideCastle && r.value.isQueensideCastle)
    ensures r.Some? ==> OnBoard(r.value.from) && OnBoard(r.value.to)
    ensures r.Some? ==> r.value.variations == [] && r.value.nags == []
    ensures r.Some? && r.value.promotion != Pawn ==> '=' in raw
    ensures r.Some? && r.value.isCheck ==> '+' in raw
    ensures r.Some? && r.value.isMate ==> '#' in raw
  {
    match IndexOf(raw, '=')
    case Some(i) => PromotedMove(raw, i)
    case None => SuffixedMove(raw)
  }

  /** Step 1 of parseMoveFromRaw, for the first `=` at i. */
  function PromotedMove(raw: string, i: nat): (r: Option<Move>)
    requires i < |raw|
    ensures r.Some? ==> !(r.value.isCheck && r.value.isMate) && r.value.promotion != Pawn
    ensures r.Some? && r.value.isCheck ==> '+' in raw
    ensures r.Some? && r.value.isMate ==> '#' in raw
  {
    var promoAndSuffix := raw[i + 1..];
    if |promoAndSuffix| == 0 || PieceSymbol(promoAndSuffix[0]).None? then None
    else
      var suffix := promoAndSuffix[1..];
      assert suffix == "+" ==> raw[i + 2] == '+';
      assert suffix == "#" ==> raw[i + 2] == '#';
      WithSuffix(CastleOrCore(raw[..i]), suffix == "+", suffix == "#", PieceSymbol(promoAndSuffix[0]).value)
  }

  /** Step 2 of parseMoveFromRaw, for text without `=`: one trailing `+` or `#` is stripped. */
  function SuffixedMove(raw: string): (r: Option<Move>)
    ensures r.Some? ==> !(r.value.isCheck && r.value.isMate) && r.value.promotion == Pawn
    ensures r.Some? && r.value.isCheck ==> '+' in raw
    ensures r.Some? && r.value.isMate ==> '#' in raw
  {
    if |raw| > 0 && raw[|raw| - 1] == '+' then WithSuffix(CastleOrCore(raw[..|raw| - 1]), true, false, Pawn)
    else if |raw| > 0 && raw[|raw| - 1] == '#' then WithSuffix(CastleOrCore(raw[..|raw| - 1]), false, true, Pawn)
    else WithSuffix(CastleOrCore(raw), false, false, Pawn)
  }

  /**
   * The promotion rules: an `=` with nothing after it, or followed by a letter
   * that names no piece, fails; a piece letter sets the promotion; after it
   * exactly `+` sets check and exactly `#` sets mate.
   */
  lemma PromotionRules(raw: string, i: nat)
    requires i < |raw| && raw[i] == '=' && '=' !in raw[..i]
    ensures i + 1 == |raw| ==> ParseMoveFromRaw(raw).None?
    ensures i + 1 < |raw| && raw[i + 1] !in PieceLetters ==> ParseMoveFromRaw(raw).None?
    ensures ParseMoveFromRaw(raw).Some? ==>
              i + 1 < |raw| && PieceSymbol(raw[i + 1]) == Some(ParseMoveFromRaw(raw).value.promotion)
              && (ParseMoveFromRaw(raw).value.isCheck <==> raw[i + 2..] == "+")
              && (ParseMoveFromRaw(raw).value.isMate <==> raw[i + 2..] == "#")
    ensures ParseMoveFromRaw(raw).Some? <==> i + 1 < |raw| && raw[i + 1] in PieceLetters && CastleOrCore(raw[..i]).Some?
  {
    assert IndexOf(raw, '=') == Some(i);
    if i + 1 < |raw| {
      assert raw[i + 1..][1..] == raw[i + 2..];
    }
  }

  /** A core without `=`, then `=`, a piece letter and any suffix: the suffix decides check and mate. */
  lemma PromotedText(core: string, letter: char, suffix: string)
    requires '=' !in core && letter in PieceLetters
    ensures ParseMoveFromRaw(core + "=" + [letter] + suffix)
            == WithSuffix(CastleOrCore(core), suffix == "+", suffix == "#", PieceSymbol(letter).value)
  {
    var raw := core + "=" + [letter] + suffix;
    assert raw[|core|] == '=' && raw[..|core|] == core;
    assert IndexOf(raw, '=') == Some(|core|);
    assert raw[|core| + 1..] == [letter] + suffix;
  }

  /** Text after the promotion letter other than exactly `+` or `#` changes nothing. */
  lemma TrailingTextAfterPromotionIgnored(core: string, letter: char, junk: string)
    requires '=' !in core && letter in PieceLetters
    requires junk != "+" && junk != "#"
    ensures ParseMoveFromRaw(core + "=" + [letter] + junk) == ParseMoveFromRaw(core + "=" + [letter])
  {
    PromotedText(core, letter, junk);
    PromotedText(core, letter, "");
    assert core + "=" + [letter] + "" == core + "=" + [letter];
  }

  /** Without an `=`, a trailing `+` sets check and the rest is read as the core. */
  lemma CheckSuffix(core: string)
    requires '=' !in core
    ensures ParseMoveFromRaw(core + "+") == WithSuffix(CastleOrCore(core), true, false, Pawn)
  {
    var raw := core + "+";
    assert '=' !in raw && raw[..|core|] == core;
  }

  /** Without an `=`, a trailing `#` sets mate and the rest is read as the core. */
  lemma MateSuffix(core: string)
    requires '=' !in core
    ensures ParseMoveFromRaw(core + "#") == WithSuffix(CastleOrCore(core), false, true, Pawn)
  {
    var raw := core + "#";
    assert '=' !in raw && raw[..|core|] == core;
  }

  /** Without an `=`, a trailing `+` sets check, a trailing `#` sets mate, and the rest is read as the core. */
  lemma CheckAndMateSuffixes(core: string)
    requires '=' !in core
    ensures ParseMoveFromRaw(core + "+") == WithSuffix(CastleOrCore(core), true, false, Pawn)
    ensures ParseMoveFromRaw(core + "#") == WithSuffix(CastleOrCore(core), false, true, Pawn)
    ensures |core| > 0 && core[|core| - 1] != '+' && core[|core| - 1] != '#' ==>
              ParseMoveFromRaw(core) == WithSuffix(CastleOrCore(core), false, false, Pawn)
  {
    CheckSuffix(core);
    MateSuffix(core);
  }

  /** `O-O` and `O-O-O` are king moves with the matching castle flag, zero squares and no capture. */
  lemma CastlingCores()
    ensures ParseMoveFromRaw("O-O") == Some(KingsideCastle)
    ensures ParseMoveFromRaw("O-O-O") == Some(QueensideCastle)
    ensures KingsideCastle.piece == King && KingsideCastle.from == ZeroSquare && KingsideCastle.to == ZeroSquare
    ensures !KingsideCastle.isCapture && !KingsideCastle.isQueensideCastle
    ensures QueensideCastle.piece == King && QueensideCastle.from == ZeroSquare && QueensideCastle.to == ZeroSquare
    ensures !QueensideCastle.isCapture && !QueensideCastle.isKingsideCastle
  {
    assert IndexOf("O-O", '=') == None;
    assert IndexOf("O-O-O", '=') == None;
  }
}
