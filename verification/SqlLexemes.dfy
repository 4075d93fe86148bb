/** Where quotes and comments end, and what is left of them. */
module SqlLexemes {
  import opened Text
  import opened Sequences
  import opened SqlSplitter
  import opened SqlSplitterLaws

  // ----- line comments

  lemma {:induction false} LineRuns(c: string, rest: string)
    requires '\n' !in c
    ensures LineLength(c) == |c| && LineLength(c + "\n" + rest) == |c| + 1
  {
    var s := c + "\n" + rest;
    if c != "" {
      LineRuns(c[1..], rest);
      assert s[1..] == c[1..] + "\n" + rest;
    }
  }

  /** A line comment is the rest of its line and the newline, or the rest of the text. */
  lemma LineCommentEnds(c: string, rest: string)
    requires '\n' !in c
    ensures Lexemes("--" + c + "\n" + rest) == [LineComment("--" + c + "\n")] + Lexemes(rest)
    ensures Lexemes("--" + c) == [LineComment("--" + c)]
  {
    LineRuns(c, rest);
    var s, whole := "--" + c + "\n" + rest, "--" + c;
    assert s == ("--" + c + "\n") + rest && s == "--" + (c + "\n" + rest);
    Parts("--", c + "\n" + rest);
    LineFirstIs(s, "--" + c + "\n", rest);
    Parts("--", c);
    assert whole == whole + "";
    LineFirstIs(whole, whole, "");
  }

  lemma LineFirstIs(s: string, text: string, rest: string)
    requires s == text + rest && OpensLineComment(s) && 2 + LineLength(s[2..]) == |text|
    ensures Lexemes(s) == [LineComment(text)] + Lexemes(rest)
  {
    Parts(text, rest);
    LexemesOf(s);
  }

  /** It counts for its newline. */
  lemma LineCommentIsItsNewline(scan: Scan, text: string)
    ensures Turn(scan, LineComment(text + "\n"), true) == Turn(scan, Plain("\n"), true)
    ensures text == "" || text[|text| - 1] != '\n' ==> Turn(scan, LineComment(text), true) == scan
  {
    var current := scan.current + "\n";
    assert (text + "\n")[|text| + 1 - 1] == '\n';
    NewlineEndsNothing(current);
    assert scan.current + "" == scan.current;
  }

  lemma NewlineEndsNothing(s: string)
    requires s != "" && s[|s| - 1] == '\n'
    ensures !EndsWithKeyword(s, " begin") && !EndsWithKeyword(s, " end")
  {
    if |s| >= 6 {
      assert Lower(s[|s| - 6 + 5]) != " begin"[5];
    }
    if |s| >= 4 {
      assert Lower(s[|s| - 4 + 3]) != " end"[3];
    }
  }

  lemma NewlineLexeme(rest: string)
    ensures Lexemes("\n" + rest) == [Plain("\n")] + Lexemes(rest)
  {
    var s := "\n" + rest;
    assert s[..1] == "\n" && s[1..] == rest;
    LexemesOf(s);
  }

  lemma SameFirstTurn(a: Lexeme, b: Lexeme, more: seq<Lexeme>)
    requires Turn(START, a, true) == Turn(START, b, true)
    ensures Turns(START, [a] + more, true) == Turns(START, [b] + more, true)
  {
    TailOf(a, more);
    TailOf(b, more);
  }

  lemma LineCommentIsDropped(c: string, rest: string)
    requires '\n' !in c
    ensures Split("--" + c + "\n" + rest) == Split("\n" + rest)
  {
    LineCommentEnds(c, rest);
    NewlineLexeme(rest);
    LineCommentIsItsNewline(START, "--" + c);
    SameFirstTurn(LineComment("--" + c + "\n"), Plain("\n"), Lexemes(rest));
  }

  // ----- block comments

  predicate Unclosed(c: string) {
    forall i | 0 <= i < |c| - 1 :: !(c[i] == '*' && c[i + 1] == '/')
  }

  lemma {:induction false} BlockRuns(c: string, rest: string, prev: char)
    requires Unclosed(c) && !(prev == '*' && c != "" && c[0] == '/')
    ensures BlockLength(c + "*/" + rest, prev) == |c| + 2
    decreases |c|
  {
    var s := c + "*/" + rest;
    if c == "" {
      assert s[0] == '*' && s[1..][0] == '/';
    } else {
      assert s[1..] == c[1..] + "*/" + rest;
      BlockRuns(c[1..], rest, c[0]);
    }
  }

  lemma {:induction false} BlockRunsOut(c: string, prev: char)
    requires Unclosed(c) && !(prev == '*' && c != "" && c[0] == '/')
    ensures BlockLength(c, prev) == |c|
    decreases |c|
  {
    if c != "" {
      BlockRunsOut(c[1..], c[0]);
    }
  }

  /** A block comment runs to the first closing mark, or to the end of the text. */
  lemma BlockCommentEnds(c: string, rest: string)
    requires Unclosed(c)
    ensures Lexemes("/*" + c + "*/" + rest) == [BlockComment("/*" + c + "*/")] + Lexemes(rest)
    ensures Lexemes("/*" + c) == [BlockComment("/*" + c)]
  {
    BlockRuns(c, rest, '\0');
    BlockRunsOut(c, '\0');
    var s, whole := "/*" + c + "*/" + rest, "/*" + c;
    assert s == ("/*" + c + "*/") + rest && s == "/*" + (c + "*/" + rest);
    Parts("/*", c + "*/" + rest);
    BlockFirstIs(s, "/*" + c + "*/", rest);
    Parts("/*", c);
    assert whole == whole + "";
    BlockFirstIs(whole, whole, "");
  }

  lemma BlockFirstIs(s: string, text: string, rest: string)
    requires s == text + rest && OpensBlockComment(s) && 2 + BlockLength(s[2..], '\0') == |text|
    ensures Lexemes(s) == [BlockComment(text)] + Lexemes(rest)
  {
    Parts(text, rest);
    LexemesOf(s);
  }

  lemma BlockCommentIsDropped(c: string, rest: string)
    requires Unclosed(c)
    ensures Split("/*" + c + "*/" + rest) == Split(rest)
  {
    var l := BlockComment("/*" + c + "*/");
    BlockCommentEnds(c, rest);
    TailOf(l, Lexemes(rest));
    assert Turn(START, l, true) == START;
  }

  // ----- quotes

  /** A body as it is written inside quotes of this kind. */
  function Doubled(body: string, quote: char): string {
    if body == "" then "" else (if body[0] == quote then [quote, quote] else [body[0]]) + Doubled(body[1..], quote)
  }

  lemma {:induction false} QuoteRuns(body: string, quote: char, rest: string)
    requires rest == "" || rest[0] != quote
    ensures QuoteLength(Doubled(body, quote) + [quote] + rest, quote) == |Doubled(body, quote)| + 1
  {
    var s := Doubled(body, quote) + [quote] + rest;
    if body == "" {
      assert s == [quote] + rest;
    } else {
      QuoteRuns(body[1..], quote, rest);
      var more := Doubled(body[1..], quote) + [quote] + rest;
      if body[0] == quote {
        assert s == [quote, quote] + more && s[2..] == more;
      } else {
        assert s == [body[0]] + more && s[1..] == more;
      }
    }
  }

  /** Whatever a quoted body holds, semicolons, comment marks and doubled quotes included, it is
      one lexeme; it is kept as it stands and neither cuts nor moves the depth. */
  lemma QuotedIsOneLexeme(body: string, quote: char, rest: string, scan: Scan)
    requires IsQuote(quote) && (rest == "" || rest[0] != quote)
    ensures var text := [quote] + Doubled(body, quote) + [quote];
            && Lexemes(text + rest) == [Quoted(text)] + Lexemes(rest)
            && Turn(scan, Quoted(text), true) == Scan(scan.pieces, scan.current + text, scan.depth)
  {
    var inner := Doubled(body, quote);
    QuoteRuns(body, quote, rest);
    QuotedFirst(quote, inner, rest);
    QuotedIsKept(scan, [quote] + inner + [quote]);
  }

  lemma QuotedFirst(quote: char, inner: string, rest: string)
    requires IsQuote(quote) && QuoteLength(inner + [quote] + rest, quote) == |inner| + 1
    ensures var text := [quote] + inner + [quote];
            Lexemes(text + rest) == [Quoted(text)] + Lexemes(rest)
  {
    var text := [quote] + inner + [quote];
    var s := text + rest;
    assert s[0] == quote && s[1..] == inner + [quote] + rest;
    assert s[..|inner| + 2] == text && s[|inner| + 2..] == rest;
    assert NextLexeme(s) == Quoted(text);
    LexemesOf(s);
  }

  lemma QuotedIsKept(scan: Scan, text: string)
    ensures Turn(scan, Quoted(text), true) == Scan(scan.pieces, scan.current + text, scan.depth)
  {
  }

  lemma QuoteMarks(c: char)
    ensures IsQuote(c) <==> c in {'\'', '"', '`'}
  {
  }

  // ----- turns

  /** A cut is a semicolon outside quotes, comments and blocks, and it is not kept; everything
      else goes into the buffer, comments without their text. */
  lemma OnlyASemicolonCuts(scan: Scan, l: Lexeme)
    ensures var next := Turn(scan, l, true);
            if l == Plain(";") && scan.depth == 0 then next == Scan(scan.pieces + [scan.current], "", 0)
            else
              && next.pieces == scan.pieces
              && (l.Plain? || l.Quoted? ==> next.current == scan.current + l.text)
              && (l.BlockComment? ==> next == scan)
              && (!l.Plain? ==> next.depth == scan.depth)
  {
    assert scan.current + "" == scan.current;
  }

  /** While the rescan finds the buffer inside a quote, no keyword moves the depth. */
  lemma NoKeywordInQuote(scan: Scan, c: char)
    requires InQuote(scan.current + [c]) && (c != ';' || scan.depth > 0)
    ensures Turn(scan, Plain([c]), true) == Scan(scan.pieces, scan.current + [c], scan.depth)
  {
  }

  /** What the rescan calls inside: behind a quote, single or double, until the next of the same
      kind; one of the other kind in between changes nothing, and backticks never count. */
  lemma {:induction false} InsideUntilTheSame(front: string, quote: char, body: string)
    requires !InQuote(front) && (quote == '\'' || quote == '"') && quote !in body
    ensures !InQuote("")
    ensures InQuote(front + [quote] + body)
    ensures !InQuote(front + [quote] + body + [quote])
    decreases |body|
  {
    InsideFrom(front, quote, body);
    OneMoreCharacter(front + [quote] + body, quote);
  }

  lemma OneMoreCharacter(s: string, c: char)
    ensures QuotesAfter(s + [c], OUTSIDE) == Toggle(QuotesAfter(s, OUTSIDE), c)
  {
    assert (s + [c])[..|s|] == s;
  }

  lemma {:induction false} InsideFrom(front: string, quote: char, body: string)
    requires QuotesAfter(front, OUTSIDE) == OUTSIDE && (quote == '\'' || quote == '"') && quote !in body
    ensures QuotesAfter(front + [quote] + body, OUTSIDE) == Toggle(OUTSIDE, quote)
    decreases |body|
  {
    if body == "" {
      assert front + [quote] + body == front + [quote];
      OneMoreCharacter(front, quote);
    } else {
      var start, c := body[..|body| - 1], body[|body| - 1];
      assert c in body && forall x | x in start :: x in body;
      InsideFrom(front, quote, start);
      OneMoreCharacter(front + [quote] + start, c);
      assert front + [quote] + body == front + [quote] + start + [c];
    }
  }

  lemma OtherCharactersStayOutside(front: string, c: char)
    requires !InQuote(front) && c != '\'' && c != '"'
    ensures !InQuote(front + [c])
  {
    assert (front + [c])[..|front|] == front;
  }

  // ----- statements

  /** No statement is empty or has space at its ends. */
  lemma {:induction false} StatementsAreTrimmed(pieces: seq<string>, i: nat)
    requires i < |Statements(pieces)|
    ensures Statements(pieces)[i] != "" && Trim(Statements(pieces)[i]) == Statements(pieces)[i]
    decreases |pieces|
  {
    var front, last := pieces[..|pieces| - 1], pieces[|pieces| - 1];
    if i < |Statements(front)| {
      StatementsAreTrimmed(front, i);
    } else {
      TrimmedEnds(last);
    }
  }

  /** A piece is its text without the space around it, and nothing if it is all space. */
  lemma SpaceAroundIsDropped(pieces: seq<string>, before: string, text: string, after: string)
    requires Blank(before) && Blank(after)
    requires text == "" || (!IsSpace(text[0]) && !IsSpace(text[|text| - 1]))
    ensures Statements(pieces + [before + text + after]) == Statements(pieces) + (if text == "" then [] else [text])
  {
    StatementsOf(pieces, before + text + after);
    TrimOf(before, text, after);
    if text == "" {
      assert before + text + after == before + after;
    }
  }
}
