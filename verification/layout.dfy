/**
 * The token layout of movetext, independent of how a single move or glyph is
 * spelled: each move is its head token, then one token per glyph, then each
 * variation in parentheses. A reader that takes a head token to the bare move,
 * a glyph token to its glyph on the last move, and a parenthesised sub-reading
 * to a variation of the last move reads such a layout back as the moves it
 * was written from.
 */
module Layout {
  import opened Tokens
  import opened Notation
  import opened Parser

  /**
   * How moves and glyphs are spelled: the head token of a move and the token
   * of a glyph, with the moves and glyphs these spellings are read back from.
   */
  datatype Spelling = Spelling(head: Move -> Token, glyph: int -> Token, headOk: Move -> bool, glyphOk: int -> bool)

  /** A move with its glyphs and variations removed: what its head token stands for. */
  function Bare(m: Move): (b: Move)
    ensures b.variations == [] && b.nags == []
    ensures b.(variations := m.variations, nags := m.nags) == m
  {
    m.(variations := [], nags := [])
  }

  function GlyphTokens(sp: Spelling, nags: seq<int>): (ts: seq<Token>)
    ensures |ts| == |nags|
  {
    if nags == [] then [] else [sp.glyph(nags[0])] + GlyphTokens(sp, nags[1..])
  }

  function MoveTokens(sp: Spelling, m: Move): seq<Token>
    decreases m, 1
  {
    [sp.head(m)] + GlyphTokens(sp, m.nags) + VariationsTokens(sp, m.variations)
  }

  function VariationsTokens(sp: Spelling, vs: seq<Variation>): seq<Token>
    decreases vs, 0
  {
    if vs == [] then []
    else [Token(LParen, "(")] + MovesTokens(sp, vs[0].moves) + [Token(RParen, ")")] + VariationsTokens(sp, vs[1..])
  }

  function MovesTokens(sp: Spelling, ms: seq<Move>): seq<Token>
    decreases ms, 0
  {
    if ms == [] then [] else MoveTokens(sp, ms[0]) + MovesTokens(sp, ms[1..])
  }

  predicate WritableGlyphs(sp: Spelling, nags: seq<int>) {
    forall k :: 0 <= k < |nags| ==> sp.glyphOk(nags[k])
  }

  /** A move whose head, glyphs and variations are all spelled so that they read back. */
  predicate WritableMove(sp: Spelling, m: Move)
    decreases m, 1
  {
    sp.headOk(m) && WritableGlyphs(sp, m.nags) && WritableVariations(sp, m.variations)
  }

  predicate WritableVariations(sp: Spelling, vs: seq<Variation>)
    decreases vs, 0
  {
    forall k :: 0 <= k < |vs| ==> WritableMoves(sp, vs[k].moves)
  }

  predicate WritableMoves(sp: Spelling, ms: seq<Move>)
    decreases ms, 0
  {
    forall k :: 0 <= k < |ms| ==> WritableMove(sp, ms[k])
  }

  /** ts from i holds a and then b: b starts |a| further on, and the elements of a are at i onwards. */
  lemma SuffixAfter<T>(ts: seq<T>, i: nat, a: seq<T>, b: seq<T>)
    requires i <= |ts| && ts[i..] == a + b
    ensures i + |a| <= |ts| && ts[i + |a|..] == b
    ensures forall k :: 0 <= k < |a| ==> ts[i + k] == a[k]
  {
    assert ts[i + |a|..] == ts[i..][|a|..];
    forall k | 0 <= k < |a|
      ensures ts[i + k] == a[k]
    {
      assert ts[i + k] == ts[i..][k];
    }
  }

  /** Token k is the head token of m, and m is a move it reads back as. */
  predicate HeadAt(ts: seq<Token>, sp: Spelling, k: nat, m: Move) {
    k < |ts| && ts[k] == sp.head(m) && sp.headOk(m)
  }

  /** Token k is the token of glyph n, and n is a glyph it reads back as. */
  predicate GlyphAt(ts: seq<Token>, sp: Spelling, k: nat, n: int) {
    k < |ts| && ts[k] == sp.glyph(n) && sp.glyphOk(n)
  }

  /** Tokens k and j are a `(` and a `)`. */
  predicate ParensAt(ts: seq<Token>, k: nat, j: nat) {
    k < j < |ts| && ts[k].kind == LParen && ts[j].kind == RParen
  }

  /** A reader of movetext: from a position and the moves read so far, an outcome. */
  type MovetextReader<R> = (nat, seq<Move>) -> R

  /**
   * f reads the three token shapes of the layout the way parseMovetext does:
   * a head token appends its bare move, a glyph token appends its glyph to the
   * last move, and a parenthesised variation, read from an empty list, is
   * appended to the variations of the last move.
   */
  ghost predicate ReadsLikeMovetext<R>(ts: seq<Token>, sp: Spelling, f: MovetextReader<R>) {
    ReadsHeads(ts, sp, f) && ReadsGlyphs(ts, sp, f) && ReadsVariations(ts, f)
  }

  ghost predicate ReadsHeads<R>(ts: seq<Token>, sp: Spelling, f: MovetextReader<R>) {
    forall k: nat, acc: seq<Move>, m: Move {:trigger HeadAt(ts, sp, k, m), f(k, acc)} ::
      HeadAt(ts, sp, k, m) ==> f(k, acc) == f(k + 1, acc + [Bare(m)])
  }

  ghost predicate ReadsGlyphs<R>(ts: seq<Token>, sp: Spelling, f: MovetextReader<R>) {
    forall k: nat, acc: seq<Move>, x: Move, n: int {:trigger GlyphAt(ts, sp, k, n), f(k, acc + [x])} ::
      GlyphAt(ts, sp, k, n) ==> f(k, acc + [x]) == f(k + 1, acc + [x.(nags := x.nags + [n])])
  }

  ghost predicate ReadsVariations<R>(ts: seq<Token>, f: MovetextReader<R>) {
    forall k: nat, j: nat, acc: seq<Move>, x: Move, v: seq<Move> {:trigger ParensAt(ts, k, j), f(j, v), f(k, acc + [x])} ::
      ParensAt(ts, k, j) && f(k + 1, []) == f(j, v)
      ==> f(k, acc + [x]) == f(j + 1, acc + [x.(variations := x.variations + [Variation(v)])])
  }

  /** Reading the glyph tokens of a list of glyphs appends the glyphs, in order, to the last move. */
  lemma {:induction false} ReadGlyphs<R>(ts: seq<Token>, sp: Spelling, f: MovetextReader<R>, i: nat, acc: seq<Move>, x: Move, nags: seq<int>, rest: seq<Token>)
    requires ReadsLikeMovetext(ts, sp, f)
    requires WritableGlyphs(sp, nags) && i <= |ts| && ts[i..] == GlyphTokens(sp, nags) + rest
    ensures i + |nags| <= |ts|
    ensures f(i, acc + [x]) == f(i + |nags|, acc + [x.(nags := x.nags + nags)])
    decreases |nags|
  {
    if nags == [] {
      assert x.(nags := x.nags + nags) == x;
    } else {
      var n := nags[0];
      var tail := GlyphTokens(sp, nags[1..]) + rest;
      assert ts[i..] == [sp.glyph(n)] + tail;
      SuffixAfter(ts, i, [sp.glyph(n)], tail);
      assert GlyphAt(ts, sp, i, n);
      ReadGlyphs(ts, sp, f, i + 1, acc, x.(nags := x.nags + [n]), nags[1..], rest);
      assert x.nags + [n] + nags[1..] == x.nags + nags;
    }
  }

  lemma AppendFirst<T>(acc: seq<T>, ms: seq<T>)
    requires ms != []
    ensures acc + [ms[0]] + ms[1..] == acc + ms
  {
    assert ms == [ms[0]] + ms[1..];
  }

  /** Reading the tokens of a list of moves appends the moves. */
  lemma {:induction false} ReadMoves<R>(ts: seq<Token>, sp: Spelling, f: MovetextReader<R>, i: nat, acc: seq<Move>, ms: seq<Move>, rest: seq<Token>)
    requires ReadsLikeMovetext(ts, sp, f)
    requires WritableMoves(sp, ms) && i <= |ts| && ts[i..] == MovesTokens(sp, ms) + rest
    ensures i + |MovesTokens(sp, ms)| <= |ts|
    ensures f(i, acc) == f(i + |MovesTokens(sp, ms)|, acc + ms)
    decreases ms, 0
  {
    if ms == [] {
      assert acc + ms == acc;
    } else {
      var m := ms[0];
      var tail := MovesTokens(sp, ms[1..]) + rest;
      assert ts[i..] == MoveTokens(sp, m) + tail;
      ReadMove(ts, sp, f, i, acc, m, tail);
      SuffixAfter(ts, i, MoveTokens(sp, m), tail);
      ReadMoves(ts, sp, f, i + |MoveTokens(sp, m)|, acc + [m], ms[1..], rest);
      AppendFirst(acc, ms);
    }
  }

  /** Reading the tokens of one move appends the move with its glyphs and variations. */
  lemma {:induction false} ReadMove<R>(ts: seq<Token>, sp: Spelling, f: MovetextReader<R>, i: nat, acc: seq<Move>, m: Move, rest: seq<Token>)
    requires ReadsLikeMovetext(ts, sp, f)
    requires WritableMove(sp, m) && i <= |ts| && ts[i..] == MoveTokens(sp, m) + rest
    ensures i + |MoveTokens(sp, m)| <= |ts|
    ensures f(i, acc) == f(i + |MoveTokens(sp, m)|, acc + [m])
    decreases m, 1
  {
    var j := i + 1 + |m.nags|;
    ReadHeadAndGlyphs(ts, sp, f, i, acc, m, rest);
    var withGlyphs := Bare(m).(nags := m.nags);
    ReadVariations(ts, sp, f, j, acc, withGlyphs, m.variations, rest);
    RebuildMove(m);
    MoveTokensLength(sp, m);
  }

  lemma RebuildMove(m: Move)
    ensures Bare(m).(nags := m.nags).(variations := [] + m.variations) == m
  {
    assert [] + m.variations == m.variations;
  }

  lemma MoveTokensLength(sp: Spelling, m: Move)
    ensures |MoveTokens(sp, m)| == 1 + |m.nags| + |VariationsTokens(sp, m.variations)|
  {
  }

  /** Reading the head and glyph tokens of a move appends the move with its glyphs and stops at its variations. */
  lemma ReadHeadAndGlyphs<R>(ts: seq<Token>, sp: Spelling, f: MovetextReader<R>, i: nat, acc: seq<Move>, m: Move, rest: seq<Token>)
    requires ReadsLikeMovetext(ts, sp, f)
    requires WritableMove(sp, m) && i <= |ts| && ts[i..] == MoveTokens(sp, m) + rest
    ensures i + 1 + |m.nags| <= |ts| && ts[i + 1 + |m.nags|..] == VariationsTokens(sp, m.variations) + rest
    ensures f(i, acc) == f(i + 1 + |m.nags|, acc + [Bare(m).(nags := m.nags)])
  {
    var gt := GlyphTokens(sp, m.nags);
    var vt := VariationsTokens(sp, m.variations);
    HeadTokenAt(ts, sp, i, m, rest);
    assert HeadAt(ts, sp, i, m);
    ReadGlyphs(ts, sp, f, i + 1, acc, Bare(m), m.nags, vt + rest);
    SuffixAfter(ts, i + 1, gt, vt + rest);
    assert [] + m.nags == m.nags;
  }

  /** The tokens of a move start with its head token, followed by its glyph and variation tokens. */
  lemma HeadTokenAt(ts: seq<Token>, sp: Spelling, i: nat, m: Move, rest: seq<Token>)
    requires i <= |ts| && ts[i..] == MoveTokens(sp, m) + rest
    ensures i < |ts| && ts[i] == sp.head(m)
    ensures ts[i + 1..] == GlyphTokens(sp, m.nags) + (VariationsTokens(sp, m.variations) + rest)
  {
    var tail := GlyphTokens(sp, m.nags) + (VariationsTokens(sp, m.variations) + rest);
    assert ts[i..] == [sp.head(m)] + tail;
    SuffixAfter(ts, i, [sp.head(m)], tail);
  }

  /** Reading the tokens of a list of variations appends them, in order, to the last move. */
  lemma {:induction false} ReadVariations<R>(ts: seq<Token>, sp: Spelling, f: MovetextReader<R>, i: nat, acc: seq<Move>, x: Move, vs: seq<Variation>, rest: seq<Token>)
    requires ReadsLikeMovetext(ts, sp, f)
    requires WritableVariations(sp, vs) && i <= |ts| && ts[i..] == VariationsTokens(sp, vs) + rest
    ensures i + |VariationsTokens(sp, vs)| <= |ts|
    ensures f(i, acc + [x]) == f(i + |VariationsTokens(sp, vs)|, acc + [x.(variations := x.variations + vs)])
    decreases vs, 0
  {
    if vs == [] {
      assert x.(variations := x.variations + vs) == x;
    } else {
      var after := VariationsTokens(sp, vs[1..]) + rest;
      var j := ReadVariation(ts, sp, f, i, acc, x, vs[0], after);
      ReadVariations(ts, sp, f, j, acc, x.(variations := x.variations + [vs[0]]), vs[1..], rest);
      assert x.variations + [vs[0]] + vs[1..] == x.variations + vs;
    }
  }

  /** Reading one parenthesised variation appends it to the variations of the last move. */
  lemma {:induction false} ReadVariation<R>(ts: seq<Token>, sp: Spelling, f: MovetextReader<R>, i: nat, acc: seq<Move>, x: Move, v: Variation, after: seq<Token>)
      returns (j: nat)
    requires ReadsLikeMovetext(ts, sp, f)
    requires WritableMoves(sp, v.moves) && i <= |ts|
    requires ts[i..] == [Token(LParen, "(")] + MovesTokens(sp, v.moves) + [Token(RParen, ")")] + after
    ensures j == i + |MovesTokens(sp, v.moves)| + 2 <= |ts| && ts[j..] == after
    ensures f(i, acc + [x]) == f(j, acc + [x.(variations := x.variations + [v])])
    decreases v, 0
  {
    var w := MovesTokens(sp, v.moves);
    var open := Token(LParen, "(");
    var close := Token(RParen, ")");
    assert ts[i..] == [open] + (w + ([close] + after));
    SuffixAfter(ts, i, [open], w + ([close] + after));
    ReadMoves(ts, sp, f, i + 1, [], v.moves, [close] + after);
    SuffixAfter(ts, i + 1, w, [close] + after);
    var k := i + 1 + |w|;
    SuffixAfter(ts, k, [close], after);
    assert [] + v.moves == v.moves;
    assert ParensAt(ts, i, k);
    assert Variation(v.moves) == v;
    j := k + 1;
  }

  /** Every token of ts satisfies p. */
  ghost predicate AllTokens(ts: seq<Token>, p: Token -> bool) {
    forall k :: 0 <= k < |ts| ==> p(ts[k])
  }

  lemma AllTokensConcat(a: seq<Token>, b: seq<Token>, p: Token -> bool)
    requires AllTokens(a, p) && AllTokens(b, p)
    ensures AllTokens(a + b, p)
  {
    forall k | 0 <= k < |a + b|
      ensures p((a + b)[k])
    {
      if k >= |a| {
        assert (a + b)[k] == b[k - |a|];
      }
    }
  }

  /** p holds of every token the spelling writes for a writable move or glyph, and of both parentheses. */
  ghost predicate SpellsWithin(sp: Spelling, p: Token -> bool) {
    (forall m :: HeadWithin(sp, p, m))
    && (forall n :: GlyphWithin(sp, p, n))
    && p(Token(LParen, "(")) && p(Token(RParen, ")"))
  }

  predicate HeadWithin(sp: Spelling, p: Token -> bool, m: Move) {
    sp.headOk(m) ==> p(sp.head(m))
  }

  predicate GlyphWithin(sp: Spelling, p: Token -> bool, n: int) {
    sp.glyphOk(n) ==> p(sp.glyph(n))
  }

  lemma {:induction false} GlyphTokensWithin(sp: Spelling, nags: seq<int>, p: Token -> bool)
    requires SpellsWithin(sp, p) && WritableGlyphs(sp, nags)
    ensures AllTokens(GlyphTokens(sp, nags), p)
    decreases |nags|
  {
    if nags != [] {
      assert sp.glyphOk(nags[0]);
      assert GlyphWithin(sp, p, nags[0]);
      assert AllTokens([sp.glyph(nags[0])], p);
      assert WritableGlyphs(sp, nags[1..]) by {
        forall k | 0 <= k < |nags| - 1
          ensures sp.glyphOk(nags[1..][k])
        {
          assert nags[1..][k] == nags[k + 1];
        }
      }
      GlyphTokensWithin(sp, nags[1..], p);
      AllTokensConcat([sp.glyph(nags[0])], GlyphTokens(sp, nags[1..]), p);
    }
  }

  /** The tokens written for writable moves all satisfy any p that the spelling keeps within. */
  lemma {:induction false} MovesTokensWithin(sp: Spelling, ms: seq<Move>, p: Token -> bool)
    requires SpellsWithin(sp, p) && WritableMoves(sp, ms)
    ensures AllTokens(MovesTokens(sp, ms), p)
    decreases ms, 0
  {
    if ms != [] {
      assert WritableMove(sp, ms[0]);
      MoveTokensWithin(sp, ms[0], p);
      MovesTokensWithin(sp, ms[1..], p);
      AllTokensConcat(MoveTokens(sp, ms[0]), MovesTokens(sp, ms[1..]), p);
    }
  }

  lemma {:induction false} MoveTokensWithin(sp: Spelling, m: Move, p: Token -> bool)
    requires SpellsWithin(sp, p) && WritableMove(sp, m)
    ensures AllTokens(MoveTokens(sp, m), p)
    decreases m, 1
  {
    GlyphTokensWithin(sp, m.nags, p);
    VariationsTokensWithin(sp, m.variations, p);
    assert sp.headOk(m);
    assert HeadWithin(sp, p, m);
    assert AllTokens([sp.head(m)], p);
    AllTokensConcat([sp.head(m)], GlyphTokens(sp, m.nags), p);
    AllTokensConcat([sp.head(m)] + GlyphTokens(sp, m.nags), VariationsTokens(sp, m.variations), p);
  }

  lemma {:induction false} VariationsTokensWithin(sp: Spelling, vs: seq<Variation>, p: Token -> bool)
    requires SpellsWithin(sp, p) && WritableVariations(sp, vs)
    ensures AllTokens(VariationsTokens(sp, vs), p)
    decreases vs, 0
  {
    if vs != [] {
      var open := [Token(LParen, "(")];
      var close := [Token(RParen, ")")];
      var w := MovesTokens(sp, vs[0].moves);
      assert WritableMoves(sp, vs[0].moves);
      MovesTokensWithin(sp, vs[0].moves, p);
      VariationsTokensWithin(sp, vs[1..], p);
      AllTokensConcat(open, w, p);
      AllTokensConcat(open + w, close, p);
      AllTokensConcat(open + w + close, VariationsTokens(sp, vs[1..]), p);
    }
  }
}
