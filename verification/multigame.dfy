/**
 * SplitMultiGame: a document of several games is cut into one string per
 * game. Line endings are normalised first; a game starts at every line whose
 * trimmed text begins with `[Event `, once something has been read; each
 * game is returned trimmed, and empty ones are dropped.
 */
module MultiGame {
  import Chars

  /** unicode.IsSpace, which strings.TrimSpace strips: ASCII blanks, NEL, NBSP and the other Unicode spaces. */
  predicate IsSpace(c: char) {
    c == ' ' || c == '\t' || c == '\n' || c == 0x0B as char || c == 0x0C as char || c == '\r'
    || c == 0x85 as char || c == 0xA0 as char || c == 0x1680 as char
    || (0x2000 as char <= c <= 0x200A as char)
    || c == 0x2028 as char || c == 0x2029 as char || c == 0x202F as char || c == 0x205F as char || c == 0x3000 as char
  }

  /**
   * The blanks the lexer skips are spaces to TrimSpace, but TrimSpace also
   * strips carriage return, vertical tab and form feed among the ASCII
   * characters, which the lexer does not skip.
   */
  lemma LexerBlanksAreSpaces(c: char)
    ensures Chars.IsWhitespace(c) ==> IsSpace(c)
    ensures (IsSpace(c) && !Chars.IsWhitespace(c) && c as int < 0x80) <==> (c == '\r' || c == 0x0B as char || c == 0x0C as char)
  {
  }

  predicate AllSpace(s: string) {
    forall k :: 0 <= k < |s| ==> IsSpace(s[k])
  }

  /** Text with no space at either end. */
  predicate Trimmed(s: string) {
    s == [] || (!IsSpace(s[0]) && !IsSpace(s[|s| - 1]))
  }

  function DropLeading(s: string): (t: string)
    ensures |t| <= |s|
    ensures t == [] || !IsSpace(t[0])
  {
    if |s| > 0 && IsSpace(s[0]) then DropLeading(s[1..]) else s
  }

  function DropTrailing(s: string): (t: string)
    ensures |t| <= |s|
    ensures t == [] || !IsSpace(t[|t| - 1])
  {
    if |s| > 0 && IsSpace(s[|s| - 1]) then DropTrailing(s[..|s| - 1]) else s
  }

  /** DropLeading keeps a suffix of its input. */
  lemma {:induction false} DropLeadingSuffix(s: string)
    ensures DropLeading(s) == s[|s| - |DropLeading(s)|..]
    decreases |s|
  {
    if |s| > 0 && IsSpace(s[0]) {
      DropLeadingSuffix(s[1..]);
    }
  }

  /** DropTrailing keeps a prefix of its input. */
  lemma {:induction false} DropTrailingPrefix(s: string)
    ensures DropTrailing(s) == s[..|DropTrailing(s)|]
    decreases |s|
  {
    if |s| > 0 && IsSpace(s[|s| - 1]) {
      DropTrailingPrefix(s[..|s| - 1]);
    }
  }

  /** strings.TrimSpace: leading and trailing spaces removed. */
  function TrimSpace(s: string): (t: string)
    ensures Trimmed(t)
  {
    var l := DropLeading(s);
    var t := DropTrailing(l);
    DropTrailingPrefix(l);
    assert t != [] ==> t[0] == l[0];
    t
  }

  /** What DropLeading cuts off is all space. */
  lemma {:induction false} LeadingCutIsSpace(s: string)
    ensures AllSpace(s[..|s| - |DropLeading(s)|])
    decreases |s|
  {
    if |s| > 0 && IsSpace(s[0]) {
      var n := |s| - |DropLeading(s)|;
      LeadingCutIsSpace(s[1..]);
      forall k | 0 <= k < n
        ensures IsSpace(s[k])
      {
        if k > 0 {
          assert s[k] == s[1..][..n - 1][k - 1];
        }
      }
    }
  }

  /** What DropTrailing cuts off is all space. */
  lemma {:induction false} TrailingCutIsSpace(s: string)
    ensures AllSpace(s[|DropTrailing(s)|..])
    decreases |s|
  {
    if |s| > 0 && IsSpace(s[|s| - 1]) {
      var n := |DropTrailing(s)|;
      var init := s[..|s| - 1];
      TrailingCutIsSpace(init);
      forall k | n <= k < |s|
        ensures IsSpace(s[k])
      {
        if k < |s| - 1 {
          assert s[k] == init[n..][k - n];
        }
      }
    }
  }

  /** The trimmed text is a slice of s with only spaces cut away around it. */
  lemma TrimSpaceCutsSpaces(s: string) returns (a: nat, b: nat)
    ensures a <= b <= |s| && TrimSpace(s) == s[a..b]
    ensures AllSpace(s[..a]) && AllSpace(s[b..])
  {
    var l := DropLeading(s);
    a := |s| - |l|;
    b := a + |DropTrailing(l)|;
    TrimSpaceSlice(s);
    LeadingCutIsSpace(s);
    TrailingCutOfSuffix(s);
  }

  /** TrimSpace keeps the slice between what DropLeading and DropTrailing cut. */
  lemma TrimSpaceSlice(s: string)
    ensures var a := |s| - |DropLeading(s)|;
            TrimSpace(s) == s[a..a + |TrimSpace(s)|]
  {
    var l := DropLeading(s);
    var t := DropTrailing(l);
    DropLeadingSuffix(s);
    DropTrailingPrefix(l);
    SliceOfSuffix(s, |s| - |l|, |t|);
  }

  /** What DropTrailing cuts from the trimmed text is the end of the text. */
  lemma TrailingCutOfSuffix(s: string)
    ensures var b := |s| - |DropLeading(s)| + |TrimSpace(s)|;
            b <= |s| && AllSpace(s[b..])
  {
    var l := DropLeading(s);
    var a := |s| - |l|;
    DropLeadingSuffix(s);
    TrailingCutIsSpace(l);
    SliceOfSuffix(s, a, |DropTrailing(l)|);
  }

  /** Slicing a suffix is slicing the text. */
  lemma SliceOfSuffix(s: string, a: nat, n: nat)
    requires a + n <= |s|
    ensures s[a..][..n] == s[a..a + n] && s[a..][n..] == s[a + n..]
  {
  }

  /** Only all-space text trims to nothing. */
  lemma TrimSpaceEmpty(s: string)
    ensures TrimSpace(s) == [] <==> AllSpace(s)
  {
    var a, b := TrimSpaceCutsSpaces(s);
    if TrimSpace(s) == [] {
      forall k | 0 <= k < |s|
        ensures IsSpace(s[k])
      {
        if k < a {
          assert s[k] == s[..a][k];
        } else {
          assert s[k] == s[b..][k - b];
        }
      }
    } else {
      assert s[a] == TrimSpace(s)[0];
    }
  }

  lemma {:induction false} DropLeadingOfSpaces(w: string, s: string)
    requires AllSpace(w)
    ensures DropLeading(w + s) == DropLeading(s)
    decreases |w|
  {
    if w == [] {
      assert w + s == s;
    } else {
      assert (w + s)[0] == w[0];
      assert (w + s)[1..] == w[1..] + s;
      DropLeadingOfSpaces(w[1..], s);
    }
  }

  lemma {:induction false} DropTrailingOfSpaces(s: string, w: string)
    requires AllSpace(w)
    ensures DropTrailing(s + w) == DropTrailing(s)
    decreases |w|
  {
    if w == [] {
      assert s + w == s;
    } else {
      assert (s + w)[|s + w| - 1] == w[|w| - 1];
      assert (s + w)[..|s + w| - 1] == s + w[..|w| - 1];
      DropTrailingOfSpaces(s, w[..|w| - 1]);
    }
  }

  /** Trimming text that starts with a non-space and ends in spaces drops those spaces. */
  lemma DropTrailingAfterText(l: string, w: string)
    requires l != [] && !IsSpace(l[0]) && AllSpace(w)
    ensures DropLeading(l + w) == l + w
    ensures DropTrailing(l + w) == DropTrailing(l)
  {
    assert (l + w)[0] == l[0];
    DropTrailingOfSpaces(l, w);
  }

  /** Text is its leading spaces followed by what DropLeading keeps. */
  lemma LeadingSplit(s: string) returns (cut: string)
    ensures s == cut + DropLeading(s) && AllSpace(cut)
  {
    cut := s[..|s| - |DropLeading(s)|];
    DropLeadingSuffix(s);
    LeadingCutIsSpace(s);
  }

  /** Leading spaces are dropped whatever follows the text. */
  lemma DropLeadingBeforeMore(s: string, w: string)
    ensures DropLeading(s + w) == DropLeading(DropLeading(s) + w)
  {
    var cut := LeadingSplit(s);
    assert s + w == cut + (DropLeading(s) + w);
    DropLeadingOfSpaces(cut, DropLeading(s) + w);
  }

  /** Spaces after the text do not change it once trimmed. */
  lemma TrimSpaceIgnoresTrailingSpaces(s: string, w: string)
    requires AllSpace(w)
    ensures TrimSpace(s + w) == TrimSpace(s)
  {
    var l := DropLeading(s);
    DropLeadingBeforeMore(s, w);
    if l == [] {
      assert l + w == w + [];
      DropLeadingOfSpaces(w, []);
    } else {
      DropTrailingAfterText(l, w);
    }
  }

  /** Trimming twice is trimming once. */
  lemma TrimSpaceIdempotent(s: string)
    ensures TrimSpace(TrimSpace(s)) == TrimSpace(s)
  {
    var t := TrimSpace(s);
    if t != [] {
      assert DropLeading(t) == t;
      assert DropTrailing(t) == t;
    }
  }

  /** strings.ReplaceAll(s, "\r\n", "\n"), left to right without overlaps. */
  function NormalizeNewlines(s: string): (r: string)
    ensures |r| <= |s|
  {
    if |s| >= 2 && s[0] == '\r' && s[1] == '\n' then "\n" + NormalizeNewlines(s[2..])
    else if s == [] then []
    else [s[0]] + NormalizeNewlines(s[1..])
  }

  /** Text without a carriage return is already normalised. */
  lemma {:induction false} NormalizeWithoutCr(s: string)
    requires '\r' !in s
    ensures NormalizeNewlines(s) == s
    decreases |s|
  {
    if s != [] {
      assert s[0] != '\r';
      assert s == [s[0]] + s[1..];
      NormalizeWithoutCr(s[1..]);
    }
  }

  /** The Windows spelling of a text: every newline written as `\r\n`. */
  function WithCrlf(u: string): (r: string)
    ensures r == [] || r[0] != '\n'
  {
    if u == [] then []
    else if u[0] == '\n' then "\r\n" + WithCrlf(u[1..])
    else [u[0]] + WithCrlf(u[1..])
  }

  /** Normalising undoes WithCrlf, whatever the text holds. */
  lemma {:induction false} NormalizeInvertsWithCrlf(u: string)
    ensures NormalizeNewlines(WithCrlf(u)) == u
    decreases |u|
  {
    if u != [] {
      NormalizeInvertsWithCrlf(u[1..]);
      var rest := WithCrlf(u[1..]);
      if u[0] == '\n' {
        assert ("\r\n" + rest)[2..] == rest;
      } else {
        assert ([u[0]] + rest)[1..] == rest;
      }
    }
  }

  /** Normalising text that does not end in `\r` and the text after it one by one gives the same as normalising both together. */
  lemma {:induction false} NormalizeConcat(x: string, y: string)
    requires x == [] || x[|x| - 1] != '\r'
    ensures NormalizeNewlines(x + y) == NormalizeNewlines(x) + NormalizeNewlines(y)
    decreases |x|
  {
    if x == [] {
      assert x + y == y;
    } else if |x| >= 2 && x[0] == '\r' && x[1] == '\n' {
      NormalizeCrlfHead(x, y);
      var x' := x[2..];
      assert x' == [] || x'[|x'| - 1] == x[|x| - 1];
      NormalizeConcat(x', y);
      Reassociate("\n", NormalizeNewlines(x'), NormalizeNewlines(y));
    } else {
      NormalizeCharHead(x, y);
      var x' := x[1..];
      assert x' == [] || x'[|x'| - 1] == x[|x| - 1];
      NormalizeConcat(x', y);
      Reassociate([x[0]], NormalizeNewlines(x'), NormalizeNewlines(y));
    }
  }

  lemma Reassociate<T>(a: seq<T>, b: seq<T>, c: seq<T>)
    ensures a + (b + c) == (a + b) + c
  {
  }

  lemma NormalizeCrlfHead(x: string, y: string)
    requires |x| >= 2 && x[0] == '\r' && x[1] == '\n'
    ensures NormalizeNewlines(x + y) == "\n" + NormalizeNewlines(x[2..] + y)
    ensures NormalizeNewlines(x) == "\n" + NormalizeNewlines(x[2..])
  {
    assert (x + y)[0] == '\r' && (x + y)[1] == '\n';
    assert (x + y)[2..] == x[2..] + y;
  }

  lemma NormalizeCharHead(x: string, y: string)
    requires x != [] && !(|x| >= 2 && x[0] == '\r' && x[1] == '\n') && x[|x| - 1] != '\r'
    ensures NormalizeNewlines(x + y) == [x[0]] + NormalizeNewlines(x[1..] + y)
    ensures NormalizeNewlines(x) == [x[0]] + NormalizeNewlines(x[1..])
  {
    assert (x + y)[0] == x[0];
    if |x| >= 2 {
      assert (x + y)[1] == x[1];
    }
    assert (x + y)[1..] == x[1..] + y;
  }

  /** strings.Split(s, "\n"): the pieces between newlines, one more than there are newlines. */
  function SplitLines(s: string): (ls: seq<string>)
    ensures |ls| >= 1
  {
    if s == [] then [[]]
    else if s[0] == '\n' then [[]] + SplitLines(s[1..])
    else
      var rest := SplitLines(s[1..]);
      [[s[0]] + rest[0]] + rest[1..]
  }

  /** strings.Join(ls, "\n"). */
  function JoinLines(ls: seq<string>): string
    requires |ls| >= 1
  {
    if |ls| == 1 then ls[0] else ls[0] + "\n" + JoinLines(ls[1..])
  }

  /** Joining the pieces with newlines gives the text back. */
  lemma {:induction false} JoinInvertsSplit(s: string)
    ensures JoinLines(SplitLines(s)) == s
    decreases |s|
  {
    if s != [] {
      JoinInvertsSplit(s[1..]);
      var rest := SplitLines(s[1..]);
      if s[0] == '\n' {
        assert SplitLines(s)[1..] == rest;
        assert s == "\n" + s[1..];
      } else {
        var first := [s[0]] + rest[0];
        var ls := [first] + rest[1..];
        if |rest| == 1 {
          assert JoinLines(ls) == first;
        } else {
          assert ls[1..] == rest[1..];
          assert JoinLines(ls) == first + "\n" + JoinLines(rest[1..]);
          assert JoinLines(rest) == rest[0] + "\n" + JoinLines(rest[1..]);
        }
      }
    }
  }

  /** Splitting text joined at a newline gives the pieces of each side. */
  lemma {:induction false} SplitAtNewline(a: string, b: string)
    ensures SplitLines(a + "\n" + b) == SplitLines(a) + SplitLines(b)
    decreases |a|
  {
    if a == [] {
      assert a + "\n" + b == "\n" + b;
      assert ("\n" + b)[1..] == b;
    } else {
      SplitLinesHead(a, b);
      SplitAtNewline(a[1..], b);
      if a[0] != '\n' {
        MergeFirstLine(a[0], SplitLines(a[1..]), SplitLines(b));
      } else {
        Reassociate([[]], SplitLines(a[1..]), SplitLines(b));
      }
    }
  }

  /** One step of SplitLines on text that goes on after a newline. */
  lemma SplitLinesHead(a: string, b: string)
    requires a != []
    ensures var r := SplitLines(a[1..] + "\n" + b);
            SplitLines(a + "\n" + b) == if a[0] == '\n' then [[]] + r else [[a[0]] + r[0]] + r[1..]
    ensures var r := SplitLines(a[1..]);
            SplitLines(a) == if a[0] == '\n' then [[]] + r else [[a[0]] + r[0]] + r[1..]
  {
    assert (a + "\n" + b)[0] == a[0];
    assert (a + "\n" + b)[1..] == a[1..] + "\n" + b;
  }

  lemma MergeFirstLine(c: char, rest: seq<string>, more: seq<string>)
    requires rest != []
    ensures [[c] + (rest + more)[0]] + (rest + more)[1..] == [[c] + rest[0]] + rest[1..] + more
  {
    assert (rest + more)[0] == rest[0];
    assert (rest + more)[1..] == rest[1..] + more;
  }

  /** A line that starts a game: its trimmed text begins with `[Event `. */
  predicate StartsGame(line: string) {
    var t := TrimSpace(line);
    |t| >= 7 && t[..7] == "[Event "
  }

  /** The games found so far and the text of the game being read. */
  datatype Splitter = Splitter(games: seq<string>, current: string)

  /** Each game found is non-empty and trimmed. */
  predicate GamesTrimmed(games: seq<string>) {
    forall k :: 0 <= k < |games| ==> games[k] != [] && Trimmed(games[k])
  }

  /** The game read so far, trimmed, is kept unless it is empty. */
  function Flush(games: seq<string>, current: string): (r: seq<string>)
    ensures GamesTrimmed(games) ==> GamesTrimmed(r)
  {
    var g := TrimSpace(current);
    TrimSpaceEmpty(current);
    if g != [] then
      assert (games + [g])[..|games|] == games;
      games + [g]
    else games
  }

  /** One line of the loop: a game-starting line after some text closes the game before it; every line is kept with its newline. */
  function Feed(st: Splitter, line: string): Splitter {
    if StartsGame(line) && |st.current| > 0 then Splitter(Flush(st.games, st.current), line + "\n")
    else Splitter(st.games, st.current + line + "\n")
  }

  function FeedAll(st: Splitter, lines: seq<string>): (r: Splitter)
    ensures GamesTrimmed(st.games) ==> GamesTrimmed(r.games)
    decreases |lines|
  {
    if lines == [] then st else FeedAll(Feed(st, lines[0]), lines[1..])
  }

  /** The games of text whose line endings are already normalised. */
  function SplitNormalized(s: string): seq<string> {
    var st := FeedAll(Splitter([], []), SplitLines(s));
    Flush(st.games, st.current)
  }

  /** SplitMultiGame: normalise line endings, then split; every game is non-empty and trimmed. */
  function SplitMultiGame(pgn: string): (games: seq<string>)
    ensures GamesTrimmed(games)
  {
    SplitNormalized(NormalizeNewlines(pgn))
  }

  /** The loop of SplitMultiGame as written, with its games and its builder. */
  method SplitMultiGameLoop(pgn: string) returns (games: seq<string>)
    ensures games == SplitMultiGame(pgn)
    ensures GamesTrimmed(games)
  {
    var text := NormalizeNewlines(pgn);
    var lines := SplitLines(text);
    games := [];
    var current: string := [];
    var i := 0;
    while i < |lines|
      invariant 0 <= i <= |lines|
      invariant FeedAll(Splitter(games, current), lines[i..]) == FeedAll(Splitter([], []), lines)
    {
      var line := lines[i];
      ghost var before := Splitter(games, current);
      var trimmed := TrimSpace(line);
      if |trimmed| >= 7 && trimmed[..7] == "[Event " && |current| > 0 {
        var game := TrimSpace(current);
        if game != [] {
          games := games + [game];
        }
        current := [];
        assert games == Flush(before.games, before.current);
        assert current + line + "\n" == line + "\n";
        assert Feed(before, line) == Splitter(games, current + line + "\n");
      } else {
        assert Feed(before, line) == Splitter(games, current + line + "\n");
      }
      current := current + line + "\n";
      ghost var rest := lines[i..];
      assert rest[0] == line && rest[1..] == lines[i + 1..];
      FeedAllStep(before, rest);
      assert FeedAll(before, rest) == FeedAll(Splitter(games, current), lines[i + 1..]);
      i := i + 1;
    }
    var game := TrimSpace(current);
    if game != [] {
      games := games + [game];
    }
  }

  lemma FeedAllStep(st: Splitter, lines: seq<string>)
    requires lines != []
    ensures FeedAll(st, lines) == FeedAll(Feed(st, lines[0]), lines[1..])
  {
  }

  /** The text the loop accumulates for lines that start no game: each line with its newline. */
  function LinesText(lines: seq<string>): string {
    if lines == [] then [] else lines[0] + "\n" + LinesText(lines[1..])
  }

  lemma {:induction false} LinesTextJoins(lines: seq<string>)
    requires |lines| >= 1
    ensures LinesText(lines) == JoinLines(lines) + "\n"
    decreases |lines|
  {
    if |lines| > 1 {
      LinesTextJoins(lines[1..]);
    }
  }

  /** No line of the sequence starts a game. */
  predicate NoGameStarts(lines: seq<string>) {
    lines == [] || (!StartsGame(lines[0]) && NoGameStarts(lines[1..]))
  }

  lemma {:induction false} NoGameStartsFrom(lines: seq<string>, i: nat)
    requires i <= |lines|
    requires forall k :: i <= k < |lines| ==> !StartsGame(lines[k])
    ensures NoGameStarts(lines[i..])
    decreases |lines| - i
  {
    if i < |lines| {
      assert lines[i..][0] == lines[i];
      assert lines[i..][1..] == lines[i + 1..];
      NoGameStartsFrom(lines, i + 1);
    }
  }

  /** A line that starts no game is added to the current game. */
  lemma FeedPlainLine(st: Splitter, line: string)
    requires !StartsGame(line)
    ensures Feed(st, line) == Splitter(st.games, st.current + line + "\n")
  {
  }

  lemma LinesTextCons(c: string, lines: seq<string>)
    requires lines != []
    ensures c + lines[0] + "\n" + LinesText(lines[1..]) == c + LinesText(lines)
  {
  }

  /** Lines that start no game only add to the current game. */
  lemma {:induction false} FeedPlainLines(st: Splitter, lines: seq<string>)
    requires NoGameStarts(lines)
    ensures FeedAll(st, lines) == Splitter(st.games, st.current + LinesText(lines))
    decreases |lines|
  {
    if lines != [] {
      FeedPlainLine(st, lines[0]);
      FeedPlainLines(Feed(st, lines[0]), lines[1..]);
      LinesTextCons(st.current, lines);
    } else {
      assert st.current + [] == st.current;
    }
  }

  /** The first line never closes a game, since nothing has been read before it. */
  lemma FirstLineOpens(line: string, rest: seq<string>)
    ensures FeedAll(Splitter([], []), [line] + rest) == FeedAll(Splitter([], line + "\n"), rest)
  {
    assert ([line] + rest)[1..] == rest;
    assert [] + line + "\n" == line + "\n";
  }

  /** Input that is empty or only spaces yields no game. */
  lemma BlankInputHasNoGames(pgn: string)
    requires AllSpace(pgn)
    ensures SplitMultiGame(pgn) == []
  {
    var text := NormalizeNewlines(pgn);
    BlankNormalizes(pgn);
    BlankTextHasNoGames(text);
  }

  lemma {:induction false} BlankNormalizes(s: string)
    requires AllSpace(s)
    ensures AllSpace(NormalizeNewlines(s))
    decreases |s|
  {
    if |s| >= 2 && s[0] == '\r' && s[1] == '\n' {
      BlankNormalizes(s[2..]);
      assert AllSpace("\n" + NormalizeNewlines(s[2..])) by {
        var r := NormalizeNewlines(s[2..]);
        forall k | 0 <= k < |"\n" + r|
          ensures IsSpace(("\n" + r)[k])
        {
          if k > 0 {
            assert ("\n" + r)[k] == r[k - 1];
          }
        }
      }
    } else if s != [] {
      BlankNormalizes(s[1..]);
      var r := NormalizeNewlines(s[1..]);
      assert AllSpace([s[0]] + r) by {
        forall k | 0 <= k < |[s[0]] + r|
          ensures IsSpace(([s[0]] + r)[k])
        {
          if k > 0 {
            assert ([s[0]] + r)[k] == r[k - 1];
          }
        }
      }
    }
  }

  lemma BlankTextHasNoGames(text: string)
    requires AllSpace(text)
    ensures SplitNormalized(text) == []
  {
    var lines := SplitLines(text);
    JoinInvertsSplit(text);
    BlankLines(text);
    forall k | 0 <= k < |lines|
      ensures !StartsGame(lines[k])
    {
      TrimSpaceEmpty(lines[k]);
    }
    NoGameStartsFrom(lines, 0);
    assert lines[0..] == lines;
    FeedPlainLines(Splitter([], []), lines);
    LinesTextJoins(lines);
    var current := [] + LinesText(lines);
    assert current == text + "\n";
    AllSpaceConcat(text, "\n");
    TrimSpaceEmpty(current);
  }

  lemma AllSpaceConcat(a: string, b: string)
    requires AllSpace(a) && AllSpace(b)
    ensures AllSpace(a + b)
  {
    forall k | 0 <= k < |a + b|
      ensures IsSpace((a + b)[k])
    {
      if k >= |a| {
        assert (a + b)[k] == b[k - |a|];
      }
    }
  }

  /** Every line of all-space text is all space. */
  lemma {:induction false} BlankLines(s: string)
    requires AllSpace(s)
    ensures forall k :: 0 <= k < |SplitLines(s)| ==> AllSpace(SplitLines(s)[k])
    decreases |s|
  {
    if s != [] {
      BlankLines(s[1..]);
      var rest := SplitLines(s[1..]);
      if s[0] != '\n' {
        AllSpaceConcat([s[0]], rest[0]);
      }
    }
  }

  /** With no game starting after the first line, the loop ends with the whole text as the current game. */
  lemma ReadAsOneGame(text: string)
    requires NoGameStarts(SplitLines(text)[1..])
    ensures FeedAll(Splitter([], []), SplitLines(text)) == Splitter([], text + "\n")
  {
    var lines := SplitLines(text);
    FirstLineOpens(lines[0], lines[1..]);
    assert [lines[0]] + lines[1..] == lines;
    FeedPlainLines(Splitter([], lines[0] + "\n"), lines[1..]);
    LinesTextCons([], lines);
    assert [] + lines[0] == lines[0];
    LinesTextJoins(lines);
    JoinInvertsSplit(text);
  }

  /** Closing text with a newline after it keeps the text trimmed, or nothing when it is blank. */
  lemma FlushWholeText(text: string)
    ensures var t := TrimSpace(text);
            Flush([], text + "\n") == if t == [] then [] else [t]
  {
    TrimSpaceIgnoresTrailingSpaces(text, "\n");
    TrimSpaceEmpty(text + "\n");
    TrimSpaceEmpty(text);
  }

  /** No line of the text after its first starts a game. */
  predicate LaterLinesStartNoGame(text: string) {
    var lines := SplitLines(text);
    forall k :: 1 <= k < |lines| ==> !StartsGame(lines[k])
  }

  /**
   * Text in which no line after the first starts a game is one game: the
   * whole normalised text, trimmed, or no game if that is empty.
   */
  lemma OneGameWithoutLaterEvent(pgn: string)
    requires LaterLinesStartNoGame(NormalizeNewlines(pgn))
    ensures var t := TrimSpace(NormalizeNewlines(pgn));
            SplitMultiGame(pgn) == if t == [] then [] else [t]
  {
    var text := NormalizeNewlines(pgn);
    NoGameStartsFrom(SplitLines(text), 1);
    ReadAsOneGame(text);
    FlushWholeText(text);
  }

  /** One line fed after games already found acts as if they were not there. */
  lemma FeedKeepsEarlierGames(games: seq<string>, current: string, line: string)
    ensures var alone := Feed(Splitter([], current), line);
            Feed(Splitter(games, current), line) == Splitter(games + alone.games, alone.current)
  {
    if StartsGame(line) && |current| > 0 {
      FlushAfter(games, [], current);
      assert games + [] == games;
    } else {
      assert games + [] == games;
    }
  }

  /** Feeding lines after games already found keeps those games in front and finds the same ones after them. */
  lemma {:induction false} FeedAllKeepsEarlierGames(games: seq<string>, current: string, lines: seq<string>)
    ensures FeedAll(Splitter(games, current), lines).games == games + FeedAll(Splitter([], current), lines).games
    ensures FeedAll(Splitter(games, current), lines).current == FeedAll(Splitter([], current), lines).current
    decreases |lines|
  {
    if lines == [] {
      assert games + [] == games;
    } else {
      var alone := Feed(Splitter([], current), lines[0]);
      FeedKeepsEarlierGames(games, current, lines[0]);
      FeedAllKeepsEarlierGames(games + alone.games, alone.current, lines[1..]);
      FeedAllKeepsEarlierGames(alone.games, alone.current, lines[1..]);
      Reassociate(games, alone.games, FeedAll(Splitter([], alone.current), lines[1..]).games);
    }
  }

  lemma FlushAfter(games: seq<string>, more: seq<string>, current: string)
    ensures Flush(games + more, current) == games + Flush(more, current)
  {
    if TrimSpace(current) != [] {
      assert games + more + [TrimSpace(current)] == games + (more + [TrimSpace(current)]);
    }
  }

  /**
   * Games come out in input order: when a line starting a game follows
   * normalised text, the games of the whole are those of the text before it
   * followed by those from that line on.
   */
  lemma SplitAtGameStart(a: string, b: string)
    requires StartsGame(SplitLines(b)[0])
    ensures SplitNormalized(a + "\n" + b) == SplitNormalized(a) + SplitNormalized(b)
  {
    var la := SplitLines(a);
    var lb := SplitLines(b);
    SplitAtNewline(a, b);
    var sa := FeedAll(Splitter([], []), la);
    FeedAllConcat(Splitter([], []), la, lb);
    FeedAllHasText(Splitter([], []), la);
    assert lb == [lb[0]] + lb[1..];
    var started := Feed(sa, lb[0]);
    assert started == Splitter(Flush(sa.games, sa.current), lb[0] + "\n");
    FeedAllKeepsEarlierGames(Flush(sa.games, sa.current), lb[0] + "\n", lb[1..]);
    FirstLineOpens(lb[0], lb[1..]);
    var sb := FeedAll(Splitter([], lb[0] + "\n"), lb[1..]);
    FlushAfter(Flush(sa.games, sa.current), sb.games, sb.current);
  }

  lemma {:induction false} FeedAllConcat(st: Splitter, xs: seq<string>, ys: seq<string>)
    ensures FeedAll(st, xs + ys) == FeedAll(FeedAll(st, xs), ys)
    decreases |xs|
  {
    if xs == [] {
      assert xs + ys == ys;
    } else {
      assert (xs + ys)[0] == xs[0];
      assert (xs + ys)[1..] == xs[1..] + ys;
      FeedAllConcat(Feed(st, xs[0]), xs[1..], ys);
    }
  }

  /** After at least one line the builder holds some text. */
  lemma {:induction false} FeedAllHasText(st: Splitter, lines: seq<string>)
    requires lines != []
    ensures |FeedAll(st, lines).current| > 0
    decreases |lines|
  {
    if |lines| > 1 {
      FeedAllHasText(Feed(st, lines[0]), lines[1..]);
    }
  }

  /** The Windows spelling of a text splits into the same games as the text. */
  lemma CrlfSplitsAlike(u: string)
    requires '\r' !in u
    ensures SplitMultiGame(WithCrlf(u)) == SplitMultiGame(u)
  {
    NormalizeInvertsWithCrlf(u);
    NormalizeWithoutCr(u);
  }
}
