/**
 * The SAN formatter of examples/advanced_iterator/main.go: formatMoveToSAN,
 * squareToString and pieceToChar. It writes a Move back as move text and is a
 * partial inverse of the move decomposer.
 */
module San {
  import opened Results
  import opened Chars
  import opened Notation

  const Replacement: char := 0xFFFD as char

  /** A Go int converted to rune (int32): the low 32 bits, read as a signed number. */
  function Int32Wrap(v: int): (r: int)
    ensures -0x8000_0000 <= r < 0x8000_0000
    ensures (r - v) % 0x1_0000_0000 == 0
  {
    (v + 0x8000_0000) % 0x1_0000_0000 - 0x8000_0000
  }

  /**
   * The character Go writes for `rune(v)`: the code point itself when it is a
   * Unicode scalar value, U+FFFD otherwise.
   */
  function RuneChar(v: int): (c: char)
    ensures 0 <= v < 0xD800 ==> c as int == v
  {
    var r := Int32Wrap(v);
    if 0 <= r < 0xD800 || 0xE000 <= r < 0x11_0000 then r as char else Replacement
  }

  /** pieceToChar: the SAN letter of a piece; pawns have none. */
  function PieceToChar(p: PieceType): (s: string)
    ensures p == Pawn <==> s == ""
    ensures |s| <= 1
  {
    match p
    case Knight => "N"
    case Bishop => "B"
    case Rook => "R"
    case Queen => "Q"
    case King => "K"
    case Pawn => ""
  }

  /** pieceToChar and PieceSymbols are inverse: each non-pawn piece has one letter, and that letter names it. */
  lemma PieceToCharInvertsPieceSymbol(c: char, p: PieceType)
    ensures PieceSymbol(c) == Some(p) <==> p != Pawn && PieceToChar(p) == [c]
  {
    if p != Pawn && PieceToChar(p) == [c] {
      assert c == PieceToChar(p)[0];
    }
  }

  /** squareToString: file letter then rank digit, each written as a rune. */
  function SquareToString(sq: Square): (s: string)
    ensures |s| == 2
  {
    [RuneChar('a' as int + sq.file), RuneChar('1' as int + sq.rank)]
  }

  /** On the board, squareToString is the square's name, so it inverts newSquare in both directions. */
  lemma SquareToStringRoundTrips(sq: Square, s: string)
    ensures OnBoard(sq) ==> SquareToString(sq) == SquareName(sq) && NewSquare(SquareToString(sq)) == Some(sq)
    ensures NewSquare(s).Some? ==> SquareToString(NewSquare(s).value) == s
  {
    if OnBoard(sq) {
      NewSquareInvertsSquareName(sq);
    }
    if NewSquare(s).Some? {
      SquareNameInvertsNewSquare(s);
    }
  }

  /** The piece letter and the one-character disambiguation formatMoveToSAN writes before any `x`. */
  function PrefixText(m: Move): string {
    (if m.piece != Pawn then PieceToChar(m.piece) else "")
    + (if m.from.file > 0 then [RuneChar('a' as int + m.from.file)] else [])
    + (if m.from.rank > 0 then [RuneChar('1' as int + m.from.rank)] else [])
  }

  /** The capture mark; a pawn capture with nothing written yet first writes its origin file. */
  function CaptureText(m: Move): string {
    if !m.isCapture then ""
    else if m.piece == Pawn && |PrefixText(m)| == 0 then [RuneChar('a' as int + m.from.file), 'x']
    else "x"
  }

  function PromotionText(m: Move): string {
    if m.promotion != Pawn then "=" + PieceToChar(m.promotion) else ""
  }

  /** Mate wins over check, so at most one of `#` and `+` is written. */
  function CheckText(m: Move): (s: string)
    ensures s == "#" <==> m.isMate
    ensures s == "+" <==> m.isCheck && !m.isMate
    ensures s == "" <==> !m.isCheck && !m.isMate
  {
    if m.isMate then "#" else if m.isCheck then "+" else ""
  }

  /** formatMoveToSAN. */
  function FormatMoveToSAN(m: Move): (s: string)
    ensures m.isKingsideCastle ==> s == "O-O"
    ensures !m.isKingsideCastle && m.isQueensideCastle ==> s == "O-O-O"
  {
    if m.isKingsideCastle then "O-O"
    else if m.isQueensideCastle then "O-O-O"
    else PrefixText(m) + CaptureText(m) + SquareToString(m.to) + PromotionText(m) + CheckText(m)
  }

  /** A pawn capture with no prefix is written with its origin file before the `x`, so the file a (zero) appears too. */
  lemma PawnCaptureWritesOriginFile(m: Move)
    requires !m.isKingsideCastle && !m.isQueensideCastle
    requires m.piece == Pawn && m.isCapture && m.from.file <= 0 && m.from.rank <= 0
    ensures FormatMoveToSAN(m)[..2] == [RuneChar('a' as int + m.from.file), 'x']
  {
  }

  /** Zero-valued disambiguation (file a, rank 1) is not written before a piece move or a quiet pawn move. */
  lemma ZeroDisambiguationNotWritten(m: Move)
    requires !m.isKingsideCastle && !m.isQueensideCastle
    requires m.from == ZeroSquare && (m.piece != Pawn || !m.isCapture)
    ensures FormatMoveToSAN(m) == PieceToChar(m.piece) + (if m.isCapture then "x" else "") + SquareToString(m.to) + PromotionText(m) + CheckText(m)
  {
  }

  /** A letter or a digit: what the prefix, capture and square parts of an on-board move consist of. */
  predicate IsMoveBodyChar(c: char) {
    IsLetter(c) || IsDigit(c)
  }

  lemma BodyOfOnBoardMove(m: Move)
    requires OnBoard(m.from) && OnBoard(m.to)
    ensures forall k :: 0 <= k < |PrefixText(m) + CaptureText(m) + SquareToString(m.to)| ==>
              IsMoveBodyChar((PrefixText(m) + CaptureText(m) + SquareToString(m.to))[k])
  {
    SquareToStringRoundTrips(m.to, "");
  }

  /**
   * For a move on the board that is not a castle: `=` appears exactly when
   * there is a promotion, the text ends in `#` exactly when the move is mate,
   * and in `+` exactly when it is check but not mate.
   */
  lemma PromotionAndCheckMarks(m: Move)
    requires !m.isKingsideCastle && !m.isQueensideCastle
    requires OnBoard(m.from) && OnBoard(m.to)
    ensures '=' in FormatMoveToSAN(m) <==> m.promotion != Pawn
    ensures var s := FormatMoveToSAN(m); s[|s| - 1] == '#' <==> m.isMate
    ensures var s := FormatMoveToSAN(m); s[|s| - 1] == '+' <==> m.isCheck && !m.isMate
  {
    var body := PrefixText(m) + CaptureText(m) + SquareToString(m.to);
    var s := FormatMoveToSAN(m);
    BodyOfOnBoardMove(m);
    assert s == body + PromotionText(m) + CheckText(m);
    if m.promotion != Pawn {
      assert s[|body|] == '=';
    } else {
      assert forall k :: 0 <= k < |s| ==> s[k] != '=';
    }
    if CheckText(m) == "" {
      if m.promotion != Pawn {
        assert s[|s| - 1] == PieceToChar(m.promotion)[0];
      } else {
        assert s[|s| - 1] == body[|body| - 1];
      }
    }
  }

  /**
   * The moves formatMoveToSAN writes without losing anything: no variations or
   * glyphs; a castle with no other flag; otherwise squares on the board, at
   * most one disambiguation coordinate, and not both check and mate.
   */
  predicate SanCanonical(m: Move) {
    m.variations == [] && m.nags == []
    && if m.isKingsideCastle then m == KingsideCastle
       else if m.isQueensideCastle then m == QueensideCastle
       else OnBoard(m.from) && OnBoard(m.to) && (m.from.file == 0 || m.from.rank == 0) && !(m.isCheck && m.isMate)
  }

  /** The parts the decomposer finds in the body of a formatted move. */
  function BodyParts(m: Move): CoreParts
    requires OnBoard(m.from) && OnBoard(m.to)
  {
    var letter := if m.piece != Pawn then Some(PieceToChar(m.piece)[0]) else None;
    var disamb :=
      if m.from.file > 0 then Some(('a' as int + m.from.file) as char)
      else if m.from.rank > 0 then Some(('1' as int + m.from.rank) as char)
      else if m.isCapture && m.piece == Pawn then Some('a')
      else None;
    CoreParts(letter, disamb, m.isCapture, SquareName(m.to)[0], SquareName(m.to)[1])
  }

  lemma BodyIsCoreText(m: Move)
    requires SanCanonical(m) && !m.isKingsideCastle && !m.isQueensideCastle
    ensures WellFormedParts(BodyParts(m))
    ensures CoreText(BodyParts(m)) == PrefixText(m) + CaptureText(m) + SquareToString(m.to)
    ensures PartsMove(BodyParts(m)) == m.(isCheck := false, isMate := false, promotion := Pawn)
  {
    BodyPartsWellFormed(m);
    BodyPartsSpellBody(m);
    BodyPartsMove(m);
  }

  lemma BodyPartsWellFormed(m: Move)
    requires SanCanonical(m) && !m.isKingsideCastle && !m.isQueensideCastle
    ensures WellFormedParts(BodyParts(m))
  {
    SquareToStringRoundTrips(m.to, "");
  }

  lemma BodyPartsSpellBody(m: Move)
    requires SanCanonical(m) && !m.isKingsideCastle && !m.isQueensideCastle
    ensures CoreText(BodyParts(m)) == PrefixText(m) + CaptureText(m) + SquareToString(m.to)
  {
    var p := BodyParts(m);
    SquareToStringRoundTrips(m.to, "");
    if m.piece != Pawn {
      PieceToCharInvertsPieceSymbol(PieceToChar(m.piece)[0], m.piece);
      assert OptionText(p.letter) == PieceToChar(m.piece);
    }
    assert PrefixText(m) + CaptureText(m) == OptionText(p.letter) + OptionText(p.disamb) + (if p.capture then "x" else "");
  }

  lemma BodyPartsMove(m: Move)
    requires SanCanonical(m) && !m.isKingsideCastle && !m.isQueensideCastle
    ensures WellFormedParts(BodyParts(m)) && PartsMove(BodyParts(m)) == m.(isCheck := false, isMate := false, promotion := Pawn)
  {
    BodyPartsWellFormed(m);
    SquareToStringRoundTrips(m.to, "");
    if m.piece != Pawn {
      PieceToCharInvertsPieceSymbol(PieceToChar(m.piece)[0], m.piece);
    }
  }


  /** The body of a formatted move holds no `=`, ends with the rank digit, and is no castle. */
  lemma FormattedBodyShape(m: Move)
    requires SanCanonical(m) && !m.isKingsideCastle && !m.isQueensideCastle
    ensures var body := PrefixText(m) + CaptureText(m) + SquareToString(m.to);
            '=' !in body && |body| > 0 && IsDigit(body[|body| - 1]) && body != "O-O" && body != "O-O-O"
  {
    var body := PrefixText(m) + CaptureText(m) + SquareToString(m.to);
    BodyIsCoreText(m);
    PartsTextShape(BodyParts(m));
    assert body[|body| - 1] != 'O';
  }

  /** The body of a formatted move is read by the core decomposer, not as a castle, and holds no `=`, `+` or `#`. */
  lemma ReadFormattedBody(m: Move)
    requires SanCanonical(m) && !m.isKingsideCastle && !m.isQueensideCastle
    ensures var body := PrefixText(m) + CaptureText(m) + SquareToString(m.to);
            CastleOrCore(body) == Some(m.(isCheck := false, isMate := false, promotion := Pawn))
            && '=' !in body && |body| > 0 && body[|body| - 1] != '+' && body[|body| - 1] != '#'
  {
    var body := PrefixText(m) + CaptureText(m) + SquareToString(m.to);
    FormattedBodyShape(m);
    BodyIsCoreText(m);
    ParseCoreMoveExactly(body, PartsMove(BodyParts(m)));
  }

  /** Putting back the check, mate and promotion flags of a SAN-canonical move. */
  lemma RestoreFlags(m: Move, core: Move)
    requires core == m.(isCheck := false, isMate := false, promotion := Pawn) && !(m.isCheck && m.isMate)
    ensures WithSuffix(Some(core), CheckText(m) == "+", CheckText(m) == "#", m.promotion) == Some(m)
  {
  }

  /** The decomposer reads back every SAN-canonical move from the text formatMoveToSAN writes for it. */
  lemma ParseInvertsFormat(m: Move)
    requires SanCanonical(m)
    ensures ParseMoveFromRaw(FormatMoveToSAN(m)) == Some(m)
  {
    if m.isKingsideCastle || m.isQueensideCastle {
      CastlingCores();
    } else if m.promotion != Pawn {
      ParseInvertsPromotion(m);
    } else {
      ParseInvertsPlainMove(m);
    }
  }

  /** A formatted promotion: the body, `=`, the piece letter and the check mark are read back. */
  lemma ParseInvertsPromotion(m: Move)
    requires SanCanonical(m) && !m.isKingsideCastle && !m.isQueensideCastle && m.promotion != Pawn
    ensures ParseMoveFromRaw(FormatMoveToSAN(m)) == Some(m)
  {
    var body := PrefixText(m) + CaptureText(m) + SquareToString(m.to);
    ReadFormattedBody(m);
    RestoreFlags(m, m.(isCheck := false, isMate := false, promotion := Pawn));
    var check := CheckText(m);
    var letter := PieceToChar(m.promotion)[0];
    PieceToCharInvertsPieceSymbol(letter, m.promotion);
    PromotionSpelling(m);
    PromotedText(body, letter, check);
  }

  /** The text of a promotion: the body, `=`, the one-letter piece name, and the check mark. */
  lemma PromotionSpelling(m: Move)
    requires !m.isKingsideCastle && !m.isQueensideCastle && m.promotion != Pawn
    ensures FormatMoveToSAN(m)
            == PrefixText(m) + CaptureText(m) + SquareToString(m.to) + "=" + [PieceToChar(m.promotion)[0]] + CheckText(m)
  {
    var body := PrefixText(m) + CaptureText(m) + SquareToString(m.to);
    assert PieceToChar(m.promotion) == [PieceToChar(m.promotion)[0]];
    assert PromotionText(m) == "=" + [PieceToChar(m.promotion)[0]];
    assert body + PromotionText(m) == body + "=" + [PieceToChar(m.promotion)[0]];
  }

  /** A formatted move without promotion: the body and the check mark are read back. */
  lemma ParseInvertsPlainMove(m: Move)
    requires SanCanonical(m) && !m.isKingsideCastle && !m.isQueensideCastle && m.promotion == Pawn
    ensures ParseMoveFromRaw(FormatMoveToSAN(m)) == Some(m)
  {
    var body := PrefixText(m) + CaptureText(m) + SquareToString(m.to);
    ReadFormattedBody(m);
    RestoreFlags(m, m.(isCheck := false, isMate := false, promotion := Pawn));
    var check := CheckText(m);
    assert FormatMoveToSAN(m) == body + check;
    if check == "" {
      assert body + check == body;
      CheckAndMateSuffixes(body);
    } else if check == "+" {
      CheckSuffix(body);
    } else {
      MateSuffix(body);
    }
  }

}
