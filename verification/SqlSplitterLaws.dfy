/** What holds of every split: boundaries, conservation, and the buffer rescan. */
module SqlSplitterLaws {
  import opened Text
  import opened SqlSplitter
  import opened Sequences

  /** The input with its comments taken out. */
  function KeptText(lexemes: seq<Lexeme>): string {
    if lexemes == [] then "" else Kept(lexemes[0]) + KeptText(lexemes[1..])
  }

  // ----- lexing

  function Joined(lexemes: seq<Lexeme>): string {
    if lexemes == [] then "" else lexemes[0].text + Joined(lexemes[1..])
  }

  lemma LexemesOf(s: string)
    requires s != ""
    ensures Lexemes(s) == [NextLexeme(s)] + Lexemes(s[|NextLexeme(s).text|..])
  {
  }

  /** Lexing loses nothing. */
  lemma {:induction false} LexingIsLossless(s: string)
    ensures Joined(Lexemes(s)) == s
    decreases |s|
  {
    if s != "" {
      var l := NextLexeme(s);
      var rest := s[|l.text|..];
      LexingIsLossless(rest);
      LexemesOf(s);
      TailOf(l, Lexemes(rest));
      assert s == l.text + rest;
    }
  }

  lemma {:induction false} QuoteLengthAppend(a: string, b: string, quote: char)
    requires QuoteLength(a, quote) < |a|
    ensures QuoteLength(a + b, quote) == QuoteLength(a, quote)
    decreases |a|
  {
    assert (a + b)[1..] == a[1..] + b;
    if a[0] != quote {
      QuoteLengthAppend(a[1..], b, quote);
    } else if |a| > 1 && a[1] == quote {
      assert (a + b)[2..] == a[2..] + b;
      QuoteLengthAppend(a[2..], b, quote);
    }
  }

  lemma {:induction false} LineLengthAppend(a: string, b: string)
    requires LineLength(a) < |a|
    ensures LineLength(a + b) == LineLength(a)
    decreases |a|
  {
    assert (a + b)[1..] == a[1..] + b;
    if a[0] != '\n' {
      LineLengthAppend(a[1..], b);
    }
  }

  lemma {:induction false} BlockLengthAppend(a: string, b: string, prev: char)
    requires BlockLength(a, prev) < |a|
    ensures BlockLength(a + b, prev) == BlockLength(a, prev)
    decreases |a|
  {
    assert (a + b)[1..] == a[1..] + b;
    if !(prev == '*' && a[0] == '/') {
      BlockLengthAppend(a[1..], b, a[0]);
    }
  }

  /** A lexeme that does not exhaust its input never looked past it. */
  lemma NextLexemeAppend(a: string, b: string)
    requires a != "" && |NextLexeme(a).text| < |a|
    ensures NextLexeme(a + b) == NextLexeme(a)
  {
    var n := |NextLexeme(a).text|;
    assert (a + b)[1..] == a[1..] + b;
    assert forall k: nat | k <= |a| :: (a + b)[..k] == a[..k];
    assert |a| > 1;
    assert (a + b)[2..] == a[2..] + b;
    if IsQuote(a[0]) {
      QuoteLengthAppend(a[1..], b, a[0]);
    } else if OpensLineComment(a) {
      LineLengthAppend(a[2..], b);
    } else if OpensBlockComment(a) {
      BlockLengthAppend(a[2..], b, '\0');
    }
  }

  /** The scan of `a` has just consumed a `;` as an ordinary character. */
  ghost predicate EndsAtSemicolon(a: string) {
    a != "" && Lexemes(a) != [] && Lexemes(a)[|Lexemes(a)| - 1] == Plain(";")
  }

  lemma AfterSemicolon(b: string)
    ensures Lexemes(";" + b) == [Plain(";")] + Lexemes(b)
  {
    assert (";" + b)[..1] == ";" && (";" + b)[1..] == b;
    LexemesOf(";" + b);
  }

  lemma FirstOfAppend(a: string, b: string)
    requires a != "" && |NextLexeme(a).text| < |a|
    ensures Lexemes(a + b) == [NextLexeme(a)] + Lexemes(a[|NextLexeme(a).text|..] + b)
  {
    var n := |NextLexeme(a).text|;
    NextLexemeAppend(a, b);
    assert (a + b)[n..] == a[n..] + b;
    LexemesOf(a + b);
  }

  lemma LoneSemicolon(a: string)
    requires EndsAtSemicolon(a) && |NextLexeme(a).text| == |a|
    ensures a == ";" && Lexemes(a) == [Plain(";")]
  {
    LexemesOf(a);
    assert a[|a|..] == "";
    assert Lexemes(a) == [NextLexeme(a)];
    assert NextLexeme(a).text == a;
  }

  lemma LastLexeme(a: string)
    requires EndsAtSemicolon(a) && |NextLexeme(a).text| < |a|
    ensures EndsAtSemicolon(a[|NextLexeme(a).text|..])
  {
    var rest := a[|NextLexeme(a).text|..];
    LexemesOf(a);
    LexemesOf(rest);
    assert Lexemes(a)[|Lexemes(a)| - 1] == Lexemes(rest)[|Lexemes(rest)| - 1];
  }

  lemma {:induction false} LexemesAppend(a: string, b: string)
    requires EndsAtSemicolon(a)
    ensures Lexemes(a + b) == Lexemes(a) + Lexemes(b)
    decreases |a|
  {
    var l := NextLexeme(a);
    var rest := a[|l.text|..];
    if rest == "" {
      LoneSemicolon(a);
      AfterSemicolon(b);
    } else {
      LastLexeme(a);
      LexemesAppend(rest, b);
      FirstOfAppend(a, b);
      LexemesOf(a);
      Associates([l], Lexemes(rest), Lexemes(b));
    }
  }

  // ----- boundaries

  lemma {:induction false} TurnsAppend(scan: Scan, a: seq<Lexeme>, b: seq<Lexeme>, rescan: bool)
    ensures Turns(scan, a + b, rescan) == Turns(Turns(scan, a, rescan), b, rescan)
    decreases |a|
  {
    if a == [] {
      assert a + b == b;
    } else {
      assert (a + b)[1..] == a[1..] + b;
      TurnsAppend(Turn(scan, a[0], rescan), a[1..], b, rescan);
    }
  }

  /** Finished pieces are never looked at again. */
  lemma {:induction false} PiecesArePrefix(done: seq<string>, scan: Scan, lexemes: seq<Lexeme>, rescan: bool)
    ensures Turns(scan.(pieces := done + scan.pieces), lexemes, rescan)
         == Turns(scan, lexemes, rescan).(pieces := done + Turns(scan, lexemes, rescan).pieces)
    decreases |lexemes|
  {
    if lexemes != [] {
      var next := Turn(scan, lexemes[0], rescan);
      assert done + (scan.pieces + [scan.current]) == (done + scan.pieces) + [scan.current];
      PiecesArePrefix(done, next, lexemes[1..], rescan);
    }
  }

  lemma {:induction false} StatementsAppend(a: seq<string>, b: seq<string>)
    ensures Statements(a + b) == Statements(a) + Statements(b)
    decreases |b|
  {
    if b == [] {
      assert a + b == a;
    } else {
      assert (a + b)[..|a + b| - 1] == a + b[..|b| - 1];
      StatementsAppend(a, b[..|b| - 1]);
    }
  }

  /** The scan of `a` has just cut: it consumed a `;` outside quotes, comments and blocks. */
  ghost predicate EndsAtCut(a: string) {
    && EndsAtSemicolon(a)
    && Turns(START, Lexemes(a)[..|Lexemes(a)| - 1], true).depth == 0
  }

  lemma ScanAfterCut(a: string)
    requires EndsAtCut(a)
    ensures var scan := Turns(START, Lexemes(a), true); scan == Scan(scan.pieces, "", 0)
  {
    var la := Lexemes(a);
    var init := la[..|la| - 1];
    assert la == init + [Plain(";")];
    TurnsAppend(START, init, [Plain(";")], true);
  }

  /** After a cut the scanner starts afresh, and what it adds is what it would produce alone. */
  lemma StatementsAfterCut(done: seq<string>, lexemes: seq<Lexeme>)
    ensures Statements(Pieces(Turns(Scan(done, "", 0), lexemes, true)))
         == Statements(Pieces(Scan(done, "", 0))) + Statements(Pieces(Turns(START, lexemes, true)))
  {
    var tail := Turns(START, lexemes, true);
    PiecesBehind(done, lexemes);
    StatementsAppend(done, Pieces(tail));
    StatementsAppend(done, [""]);
    EmptyPiece();
    Unit(Statements(done));
  }

  lemma PiecesBehind(done: seq<string>, lexemes: seq<Lexeme>)
    ensures Pieces(Turns(Scan(done, "", 0), lexemes, true)) == done + Pieces(Turns(START, lexemes, true))
  {
    var tail := Turns(START, lexemes, true);
    Unit(done);
    PiecesArePrefix(done, START, lexemes, true);
    Associates(done, tail.pieces, [tail.current]);
  }

  lemma Unit(a: seq<string>)
    ensures a + [] == a
  {
  }

  /** Splitting is compositional at every top-level boundary. */
  lemma SplitAtBoundary(a: string, b: string)
    requires EndsAtCut(a)
    ensures Split(a + b) == Split(a) + Split(b)
  {
    ScanAfterCut(a);
    LexemesAppend(a, b);
    TurnsAppend(START, Lexemes(a), Lexemes(b), true);
    StatementsAfterCut(Turns(START, Lexemes(a), true).pieces, Lexemes(b));
  }

  /** Before each of these lexemes the scanner is inside a block. */
  ghost predicate StaysInBlock(scan: Scan, lexemes: seq<Lexeme>, rescan: bool)
    decreases |lexemes|
  {
    lexemes != [] ==> scan.depth > 0 && StaysInBlock(Turn(scan, lexemes[0], rescan), lexemes[1..], rescan)
  }

  /** While the depth stays positive nothing is cut, whatever semicolons go by: the whole
      stretch lands in the one piece being built. */
  lemma {:induction false} BlockStaysTogether(scan: Scan, lexemes: seq<Lexeme>, rescan: bool)
    requires StaysInBlock(scan, lexemes, rescan)
    ensures Turns(scan, lexemes, rescan).pieces == scan.pieces
    ensures Turns(scan, lexemes, rescan).current == scan.current + KeptText(lexemes)
    decreases |lexemes|
  {
    if lexemes == [] {
      assert scan.current + "" == scan.current;
    } else {
      BlockStaysTogether(Turn(scan, lexemes[0], rescan), lexemes[1..], rescan);
      Associates(scan.current, Kept(lexemes[0]), KeptText(lexemes[1..]));
    }
  }

  lemma EmptyPiece()
    ensures Statements([""]) == []
  {
    assert [""][..0] == [];
    assert Trim("") == "";
  }

  // ----- conservation

  /** Pieces with the semicolons that separated them put back. */
  function Rejoined(pieces: seq<string>): string {
    if |pieces| == 0 then "" else if |pieces| == 1 then pieces[0]
    else Rejoined(pieces[..|pieces| - 1]) + ";" + pieces[|pieces| - 1]
  }

  lemma RejoinedCut(pieces: seq<string>, current: string)
    ensures Rejoined(pieces + [current] + [""]) == Rejoined(pieces + [current]) + ";"
  {
    assert (pieces + [current] + [""])[..|pieces| + 1] == pieces + [current];
  }

  lemma RejoinedGrow(pieces: seq<string>, current: string, more: string)
    ensures Rejoined(pieces + [current + more]) == Rejoined(pieces + [current]) + more
  {
    assert (pieces + [current + more])[..|pieces|] == pieces;
    assert (pieces + [current])[..|pieces|] == pieces;
    if pieces != [] {
      assert Rejoined(pieces) + ";" + (current + more) == (Rejoined(pieces) + ";" + current) + more;
    }
  }

  lemma TurnConserves(scan: Scan, l: Lexeme, rescan: bool)
    ensures Rejoined(Pieces(Turn(scan, l, rescan))) == Rejoined(Pieces(scan)) + Kept(l)
  {
    if Cuts(scan, l) {
      RejoinedCut(scan.pieces, scan.current);
    } else {
      RejoinedGrow(scan.pieces, scan.current, Kept(l));
    }
  }

  lemma {:induction false} TurnsConserve(scan: Scan, lexemes: seq<Lexeme>, rescan: bool)
    ensures Rejoined(Pieces(Turns(scan, lexemes, rescan))) == Rejoined(Pieces(scan)) + KeptText(lexemes)
    decreases |lexemes|
  {
    if lexemes == [] {
      assert Rejoined(Pieces(scan)) + "" == Rejoined(Pieces(scan));
    } else {
      TurnConserves(scan, lexemes[0], rescan);
      TurnsConserve(Turn(scan, lexemes[0], rescan), lexemes[1..], rescan);
      Associates(Rejoined(Pieces(scan)), Kept(lexemes[0]), KeptText(lexemes[1..]));
    }
  }

  /** Nothing but comments and the cutting semicolons is removed, nothing is reordered:
      the pieces, rejoined by `;`, are the input with its comments taken out. */
  lemma SplitConservesText(sql: string)
    ensures Rejoined(Pieces(Turns(START, Lexemes(sql), true))) == KeptText(Lexemes(sql))
  {
    TurnsConserve(START, Lexemes(sql), true);
    assert "" + KeptText(Lexemes(sql)) == KeptText(Lexemes(sql));
  }

  // ----- the rescan

  lemma {:induction false} QuotesAfterAppend(a: string, b: string, q: QuoteState)
    ensures QuotesAfter(a + b, q) == QuotesAfter(b, QuotesAfter(a, q))
    decreases |b|
  {
    if b == "" {
      assert a + b == a;
    } else {
      assert (a + b)[..|a + b| - 1] == a + b[..|b| - 1];
      QuotesAfterAppend(a, b[..|b| - 1], q);
    }
  }

  /** Inside quotes of one kind, up to and including the quote that closes them. */
  lemma {:induction false} ClosingQuoteReturns(s: string, quote: char)
    requires quote == '\'' || quote == '"'
    requires QuoteLength(s, quote) < |s|
    ensures QuotesAfter(s[..QuoteLength(s, quote)], Toggle(OUTSIDE, quote)) == OUTSIDE
    decreases |s|
  {
    var inside := Toggle(OUTSIDE, quote);
    var n := QuoteLength(s, quote);
    if s[0] != quote {
      ClosingQuoteReturns(s[1..], quote);
      assert s[..n] == [s[0]] + s[1..][..n - 1];
      OneQuoteAfter(s[0], inside);
      QuotesAfterAppend([s[0]], s[1..][..n - 1], inside);
    } else if |s| > 1 && s[1] == quote {
      ClosingQuoteReturns(s[2..], quote);
      assert s[..n] == [quote] + ([quote] + s[2..][..n - 2]);
      OneQuoteAfter(quote, inside);
      OneQuoteAfter(quote, OUTSIDE);
      QuotesAfterAppend([quote], s[2..][..n - 2], OUTSIDE);
      QuotesAfterAppend([quote], [quote] + s[2..][..n - 2], inside);
    } else {
      assert s[..n] == [quote];
      OneQuoteAfter(quote, inside);
    }
  }

  lemma OneQuoteAfter(c: char, q: QuoteState)
    ensures QuotesAfter([c], q) == Toggle(q, c)
  {
    assert [c][..0] == "";
  }

  /** A backtick literal whose body leaves the rescan inside a quote. */
  predicate Unbalanced(l: Lexeme) {
    l.Quoted? && l.text != "" && l.text[0] == '`' && InQuote(l.text)
  }

  /** What a lexeme, followed by more input, does to the rescan of a buffer outside quotes. */
  lemma LexemeQuotes(s: string)
    requires s != "" && |NextLexeme(s).text| < |s|
    ensures InQuote(Kept(NextLexeme(s))) <==> Unbalanced(NextLexeme(s))
  {
    var l := NextLexeme(s);
    if l.Quoted? && s[0] != '`' {
      var n := QuoteLength(s[1..], s[0]);
      ClosingQuoteReturns(s[1..], s[0]);
      assert l.text == [s[0]] + s[1..][..n];
      OneQuoteAfter(s[0], OUTSIDE);
      QuotesAfterAppend([s[0]], s[1..][..n], OUTSIDE);
    } else if l.LineComment? {
      OneQuoteAfter('\n', OUTSIDE);
    } else if l.Plain? {
      OneQuoteAfter(s[0], OUTSIDE);
    }
  }

  /** The buffers the main loop starts a turn with. */
  ghost predicate NeverInQuote(scan: Scan, lexemes: seq<Lexeme>)
    decreases |lexemes|
  {
    lexemes != [] ==>
      !InQuote(scan.current) && NeverInQuote(Turn(scan, lexemes[0], true), lexemes[1..])
  }

  /** Backtick literals that the loop goes on after. */
  ghost predicate NoneUnbalanced(lexemes: seq<Lexeme>) {
    forall k | 0 <= k < |lexemes| - 1 :: !Unbalanced(lexemes[k])
  }

  lemma NoneUnbalancedStep(s: string)
    requires s != "" && |NextLexeme(s).text| < |s|
    ensures var rest := s[|NextLexeme(s).text|..];
            && Lexemes(rest) != []
            && (NoneUnbalanced(Lexemes(s)) <==> !Unbalanced(NextLexeme(s)) && NoneUnbalanced(Lexemes(rest)))
  {
    var ls, rs := Lexemes(s), Lexemes(s[|NextLexeme(s).text|..]);
    LexemesOf(s);
    assert ls[0] == NextLexeme(s);
    assert forall k | 0 <= k < |rs| :: ls[k + 1] == rs[k];
    if !Unbalanced(ls[0]) && NoneUnbalanced(rs) {
      forall k | 0 <= k < |ls| - 1 ensures !Unbalanced(ls[k]) {
        if k > 0 {
          assert ls[k] == rs[k - 1];
        }
      }
    }
  }

  lemma {:induction false} NeverInQuoteIff(scan: Scan, s: string)
    requires !InQuote(scan.current)
    ensures NeverInQuote(scan, Lexemes(s)) <==> NoneUnbalanced(Lexemes(s))
    decreases |s|
  {
    if s != "" {
      var l := NextLexeme(s);
      var rest := s[|l.text|..];
      LexemesOf(s);
      TailOf(l, Lexemes(rest));
      if rest == "" {
        assert Lexemes(s) == [l];
      } else {
        NoneUnbalancedStep(s);
        LexemeQuotes(s);
        QuotesAfterAppend(scan.current, Kept(l), OUTSIDE);
        if !Unbalanced(l) {
          NeverInQuoteIff(Turn(scan, l, true), rest);
        }
      }
    }
  }

  /** The rescan agrees with the scanner (the buffer is outside quotes at every turn)
      exactly when no backtick literal before the last lexeme holds an unbalanced quote. */
  lemma RescanAgreesIff(sql: string)
    ensures NeverInQuote(START, Lexemes(sql)) <==> NoneUnbalanced(Lexemes(sql))
  {
    NeverInQuoteIff(START, sql);
  }

  lemma {:induction false} NoBackticks(s: string)
    requires '`' !in s
    ensures NoneUnbalanced(Lexemes(s))
    decreases |s|
  {
    if s != "" {
      var l := NextLexeme(s);
      var rest := s[|l.text|..];
      NoBackticks(rest);
      assert l.text[0] == s[0];
      if rest == "" {
        LexemesOf(s);
      } else {
        NoneUnbalancedStep(s);
      }
    }
  }

  lemma SameTurn(scan: Scan, s: string)
    requires s != "" && !InQuote(scan.current)
    ensures Turn(scan, NextLexeme(s), true) == Turn(scan, NextLexeme(s), false)
    ensures |NextLexeme(s).text| < |s| && !Unbalanced(NextLexeme(s)) ==>
              !InQuote(Turn(scan, NextLexeme(s), true).current)
  {
    var l := NextLexeme(s);
    QuotesAfterAppend(scan.current, Kept(l), OUTSIDE);
    if l.Plain? {
      OneQuoteAfter(s[0], OUTSIDE);
    }
    if |l.text| < |s| {
      LexemeQuotes(s);
    }
  }

  lemma {:induction false} TurnsWithoutRescan(scan: Scan, s: string)
    requires !InQuote(scan.current) && NoneUnbalanced(Lexemes(s))
    ensures Turns(scan, Lexemes(s), true) == Turns(scan, Lexemes(s), false)
    decreases |s|
  {
    if s != "" {
      var l := NextLexeme(s);
      LexemesOf(s);
      TailOf(l, Lexemes(s[|l.text|..]));
      SameTurn(scan, s);
      if |l.text| < |s| {
        NoneUnbalancedStep(s);
        TurnsWithoutRescan(Turn(scan, l, true), s[|l.text|..]);
      }
    }
  }

  /** Without unbalanced backtick literals, in particular without backticks, the rescan
      changes nothing: the statements are those of the plain lexer with a depth counter. */
  lemma RescanIsRedundant(sql: string)
    requires NoneUnbalanced(Lexemes(sql)) || '`' !in sql
    ensures Split(sql) == Statements(Pieces(Turns(START, Lexemes(sql), false)))
  {
    if '`' !in sql {
      NoBackticks(sql);
    }
    TurnsWithoutRescan(START, sql);
  }
}
