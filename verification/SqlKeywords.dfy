/**
 BEGIN and END as the splitter sees them: the check runs at every ordinary character, so a
 keyword counts as soon as its last letter arrives, whatever letters follow.
 */
module SqlKeywords {
  import opened Text
  import opened Sequences
  import opened SqlSplitter
  import opened SqlSplitterLaws

  const BEGIN := "begin"
  const END := "end"

  /** Characters that neither end a word nor open anything else. */
  predicate IsWord(w: string) {
    forall c | c in w :: c != ' ' && c != ';' && !IsQuote(c)
  }

  /** The word starts with the keyword, in any case. */
  predicate Begins(w: string, keyword: string) {
    |keyword| <= |w| && forall i | 0 <= i < |keyword| :: Lower(w[i]) == keyword[i]
  }

  predicate IsKeyword(w: string, keyword: string) {
    Begins(w, keyword) && |w| == |keyword|
  }

  function Plains(w: string): (r: seq<Lexeme>)
    ensures |r| == |w|
    ensures forall i | 0 <= i < |w| :: r[i] == Plain([w[i]])
  {
    seq(|w|, i requires 0 <= i < |w| => Plain([w[i]]))
  }

  function DepthAfterWord(depth: nat, w: string): nat {
    if Begins(w, BEGIN) then depth + 1
    else if Begins(w, END) then (if depth == 0 then 0 else depth - 1)
    else depth
  }

  /** Behind a space, only a word of just the keyword's letters ends the buffer in it. */
  lemma KeywordNeedsItsSpace(before: string, w: string, keyword: string)
    requires IsWord(w) && forall c | c in keyword :: c != ' '
    ensures EndsWithKeyword(before + " " + w, " " + keyword) <==> IsKeyword(w, keyword)
  {
    if |w| == |keyword| {
      WordOfThatLength(before, w, keyword);
    } else if |w| < |keyword| {
      ShorterWord(before, w, keyword);
    } else {
      LongerWord(before, w, keyword);
    }
  }

  lemma WordOfThatLength(before: string, w: string, keyword: string)
    requires |w| == |keyword|
    ensures EndsWithKeyword(before + " " + w, " " + keyword) <==> Begins(w, keyword)
  {
    var s, k := before + " " + w, " " + keyword;
    SameLetters(s, k, |before|, w, keyword);
  }

  lemma SameLetters(s: string, k: string, at: nat, w: string, keyword: string)
    requires |w| == |keyword| && |k| == 1 + |keyword| && |s| == at + |k|
    requires s[at] == ' ' && k[0] == ' ' && s[at + 1..] == w && k[1..] == keyword
    ensures EndsWithKeyword(s, k) <==> Begins(w, keyword)
  {
    if EndsWithKeyword(s, k) {
      forall i | 0 <= i < |w| ensures Lower(w[i]) == keyword[i] {
        assert w[i] == s[at + (1 + i)] && keyword[i] == k[1 + i];
        assert Lower(s[|s| - |k| + (1 + i)]) == k[1 + i];
      }
    }
    if Begins(w, keyword) {
      forall j | 0 <= j < |k| ensures Lower(s[|s| - |k| + j]) == k[j] {
        if j > 0 {
          assert s[at + j] == w[j - 1] && k[j] == keyword[j - 1];
        }
      }
    }
  }

  lemma ShorterWord(before: string, w: string, keyword: string)
    requires |w| < |keyword| && forall c | c in keyword :: c != ' '
    ensures !EndsWithKeyword(before + " " + w, " " + keyword)
  {
    var s, k := before + " " + w, " " + keyword;
    var j := |keyword| - |w|;
    assert s[|before|] == ' ' && k[j] == keyword[j - 1] && keyword[j - 1] in keyword;
    if |k| <= |s| {
      assert |s| - |k| + j == |before|;
      assert Lower(s[|s| - |k| + j]) != k[j];
    }
  }

  lemma LongerWord(before: string, w: string, keyword: string)
    requires |w| > |keyword| && IsWord(w)
    ensures !EndsWithKeyword(before + " " + w, " " + keyword)
  {
    var s, k := before + " " + w, " " + keyword;
    var i := |w| - |k|;
    assert s[|s| - |k| + 0] == w[i] && w[i] in w && k[0] == ' ';
  }

  lemma WordStaysOutside(before: string, w: string)
    requires IsWord(w)
    ensures InQuote(before + w) <==> InQuote(before)
    decreases |w|
  {
    if w == "" {
      assert before + w == before;
    } else {
      var front, last := w[..|w| - 1], w[|w| - 1];
      assert last in w && forall c | c in front :: c in w;
      WordStaysOutside(before, front);
      assert (before + w)[..|before + w| - 1] == before + front;
    }
  }

  lemma {:induction false} NotYet(w: string, keyword: string)
    requires w != ""
    ensures Begins(w, keyword) <==> Begins(w[..|w| - 1], keyword) || IsKeyword(w, keyword)
  {
  }

  /** A word read behind a space and outside quotes: the depth moves once, by the first
      letters of the word, and not at all otherwise. */
  lemma {:induction false} WordMovesDepth(scan: Scan, before: string, w: string)
    requires scan.current == before + " " && !InQuote(scan.current) && IsWord(w)
    ensures Turns(scan, Plains(w), true) == Scan(scan.pieces, scan.current + w, DepthAfterWord(scan.depth, w))
    decreases |w|
  {
    if w == "" {
      assert scan.current + w == scan.current;
    } else {
      var front := w[..|w| - 1];
      var mid := Scan(scan.pieces, scan.current + front, DepthAfterWord(scan.depth, front));
      FrontIsWord(w);
      WordMovesDepth(scan, before, front);
      LetterByLetter(scan, w, mid);
      LastLetter(mid, before, w, scan.depth);
    }
  }

  lemma FrontIsWord(w: string)
    requires IsWord(w) && w != ""
    ensures IsWord(w[..|w| - 1])
  {
    assert forall c | c in w[..|w| - 1] :: c in w;
  }

  lemma LetterByLetter(scan: Scan, w: string, mid: Scan)
    requires w != "" && Turns(scan, Plains(w[..|w| - 1]), true) == mid
    ensures Turns(scan, Plains(w), true) == Turns(mid, [Plain([w[|w| - 1]])], true)
  {
    var front, last := w[..|w| - 1], w[|w| - 1];
    assert Plains(w) == Plains(front) + [Plain([last])];
    TurnsAppend(scan, Plains(front), [Plain([last])], true);
  }

  lemma LastLetter(scan: Scan, before: string, w: string, depth: nat)
    requires w != "" && IsWord(w) && !InQuote(before + " ")
    requires scan.current == before + " " + w[..|w| - 1] && scan.depth == DepthAfterWord(depth, w[..|w| - 1])
    ensures Turns(scan, [Plain([w[|w| - 1]])], true) == Scan(scan.pieces, before + " " + w, DepthAfterWord(depth, w))
  {
    var last := w[|w| - 1];
    assert last in w;
    assert [Plain([last])][1..] == [];
    assert scan.current + [last] == before + " " + w;
    WordStaysOutside(before + " ", w);
    KeywordNeedsItsSpace(before, w, BEGIN);
    KeywordNeedsItsSpace(before, w, END);
    assert " " + BEGIN == " begin" && " " + END == " end";
    NotYet(w, BEGIN);
    NotYet(w, END);
    OneKeyword(w);
  }

  lemma OneKeyword(w: string)
    ensures !(Begins(w, BEGIN) && Begins(w, END))
  {
    if Begins(w, BEGIN) {
      assert Lower(w[0]) == BEGIN[0] != END[0];
    }
  }

  // ----- words behind anything else

  /** Text at whose end a keyword cannot be under way: it is empty or its last character is in
      neither keyword. Newlines, tabs and parentheses are such characters, and the space is. */
  predicate Breaks(text: string) {
    text == "" || forall k | k in BEGIN + END :: Lower(text[|text| - 1]) != k
  }

  predicate Spaced(text: string) {
    text != "" && text[|text| - 1] == ' '
  }

  /** The space that a keyword carries is a space: nothing else will do. */
  lemma OnlyASpaceWillDo(text: string, w: string, keyword: string)
    requires IsWord(w) && !Spaced(text)
    requires text == "" || Lower(text[|text| - 1]) !in keyword
    ensures !EndsWithKeyword(text + w, " " + keyword)
  {
    var s, k := text + w, " " + keyword;
    if |w| >= |k| {
      var c := w[|w| - |k|];
      assert c in w && s[|s| - |k|] == c && k[0] == ' ';
      LetterDiffers(s, k, 0, c);
    } else if text != "" {
      var j := |k| - 1 - |w|;
      assert s[|text| - 1] == text[|text| - 1];
      assert j > 0 ==> k[j] == keyword[j - 1] && keyword[j - 1] in keyword;
      if |k| <= |s| {
        LetterDiffers(s, k, j, text[|text| - 1]);
      }
    }
  }

  lemma LetterDiffers(s: string, k: string, j: nat, c: char)
    requires j < |k| <= |s| && s[|s| - |k| + j] == c && Lower(c) != k[j]
    ensures !EndsWithKeyword(s, k)
  {
  }

  lemma {:induction false} OtherWordLeavesDepth(scan: Scan, w: string)
    requires Breaks(scan.current) && !Spaced(scan.current) && IsWord(w)
    ensures Turns(scan, Plains(w), true) == Scan(scan.pieces, scan.current + w, scan.depth)
    decreases |w|
  {
    if w == "" {
      assert scan.current + w == scan.current;
    } else {
      var front, last := w[..|w| - 1], w[|w| - 1];
      assert forall c | c in front :: c in w;
      assert last in w;
      OtherWordLeavesDepth(scan, front);
      assert Plains(w) == Plains(front) + [Plain([last])];
      TurnsAppend(scan, Plains(front), [Plain([last])], true);
      OtherLetter(scan, w);
    }
  }

  lemma OtherLetter(scan: Scan, w: string)
    requires w != "" && IsWord(w) && Breaks(scan.current) && !Spaced(scan.current)
    ensures Turns(Scan(scan.pieces, scan.current + w[..|w| - 1], scan.depth), [Plain([w[|w| - 1]])], true)
         == Scan(scan.pieces, scan.current + w, scan.depth)
  {
    var last := w[|w| - 1];
    assert last in w;
    OneTurn(Scan(scan.pieces, scan.current + w[..|w| - 1], scan.depth), Plain([last]));
    assert scan.current + w[..|w| - 1] + [last] == scan.current + w;
    if scan.current != "" {
      InNeither(scan.current);
    }
    OnlyASpaceWillDo(scan.current, w, BEGIN);
    OnlyASpaceWillDo(scan.current, w, END);
    assert " " + BEGIN == " begin" && " " + END == " end";
  }

  lemma InNeither(text: string)
    requires Breaks(text) && text != ""
    ensures Lower(text[|text| - 1]) !in BEGIN && Lower(text[|text| - 1]) !in END
  {
    forall k | k in BEGIN || k in END ensures Lower(text[|text| - 1]) != k {
      assert k in BEGIN + END;
    }
  }

  lemma OneTurn(scan: Scan, l: Lexeme)
    ensures Turns(scan, [l], true) == Turn(scan, l, true)
  {
    assert [l][1..] == [];
  }

  // ----- what the check takes for the keyword

  /** A word moves the depth only behind a space: up if its first five letters are those of
      `begin`, down if its first three are those of `end`. Behind a newline, a tab, a bracket
      or nothing at all it leaves the depth alone, BEGIN and END included. */
  lemma WordBehindBreak(scan: Scan, w: string)
    requires Breaks(scan.current) && !InQuote(scan.current) && IsWord(w)
    ensures Turns(scan, Plains(w), true) ==
            Scan(scan.pieces, scan.current + w,
                 if Spaced(scan.current) && Begins(w, "begin") then scan.depth + 1
                 else if Spaced(scan.current) && Begins(w, "end") && scan.depth > 0 then scan.depth - 1
                 else scan.depth)
  {
    OneKeyword(w);
    if Spaced(scan.current) {
      var before := scan.current[..|scan.current| - 1];
      assert scan.current == before + " ";
      WordMovesDepth(scan, before, w);
    } else {
      OtherWordLeavesDepth(scan, w);
    }
  }

  /** So the check means the keyword itself exactly for words that, behind a space, are the
      keyword or do not start with it, as "beginning" and "ending" do, and behind anything
      else are not the keyword. */
  lemma KeywordIsTheWholeWordIff(scan: Scan, w: string)
    requires Breaks(scan.current) && !InQuote(scan.current) && IsWord(w)
    ensures (Turns(scan, Plains(w), true).depth > scan.depth <==> IsKeyword(w, BEGIN))
            <==> if Spaced(scan.current) then IsKeyword(w, BEGIN) || !Begins(w, BEGIN) else !IsKeyword(w, BEGIN)
    ensures scan.depth > 0 ==>
              ((Turns(scan, Plains(w), true).depth < scan.depth <==> IsKeyword(w, END))
               <==> if Spaced(scan.current) then IsKeyword(w, END) || !Begins(w, END) else !IsKeyword(w, END))
  {
    WordBehindBreak(scan, w);
    OneKeyword(w);
  }

  /** Which five letters are the keyword: capitals count as small ones. */
  lemma KeywordInAnyCase(w: string)
    ensures IsKeyword(w, "begin") <==> |w| == 5 && forall i | 0 <= i < 5 :: w[i] == "begin"[i] || w[i] == "BEGIN"[i]
    ensures IsKeyword(w, "end") <==> |w| == 3 && forall i | 0 <= i < 3 :: w[i] == "end"[i] || w[i] == "END"[i]
  {
  }

  // ----- what that does to statements

  predicate IsPlain(c: char) {
    !IsQuote(c) && c != '-' && c != '/'
  }

  lemma PlainFirst(s: string)
    requires s != "" && IsPlain(s[0])
    ensures Lexemes(s) == [Plain([s[0]])] + Lexemes(s[1..])
  {
    assert s[..1] == [s[0]];
    assert NextLexeme(s) == Plain([s[0]]);
  }

  lemma {:induction false} PlainLexemes(s: string)
    requires forall c | c in s :: IsPlain(c)
    ensures Lexemes(s) == Plains(s)
    decreases |s|
  {
    if s != "" {
      PlainFirst(s);
      PlainLexemes(s[1..]);
    }
  }

  /** A character that ends no keyword. */
  predicate EndsNone(c: char) {
    IsPlain(c) && Lower(c) != 'n' && Lower(c) != 'd'
  }

  /** It just goes into the buffer. */
  lemma OtherCharacter(scan: Scan, c: char)
    requires !InQuote(scan.current) && EndsNone(c)
    requires c != ';' || scan.depth > 0
    ensures Turn(scan, Plain([c]), true) == Scan(scan.pieces, scan.current + [c], scan.depth)
    ensures !InQuote(scan.current + [c])
  {
    var s := scan.current + [c];
    QuotesAfterAppend(scan.current, [c], OUTSIDE);
    OneQuoteAfter(c, OUTSIDE);
    LastDecides(s, " begin");
    LastDecides(s, " end");
  }

  lemma LastDecides(s: string, keyword: string)
    requires s != "" && keyword != "" && Lower(s[|s| - 1]) != keyword[|keyword| - 1]
    ensures !EndsWithKeyword(s, keyword)
  {
    if |keyword| <= |s| {
      assert Lower(s[|s| - |keyword| + (|keyword| - 1)]) != keyword[|keyword| - 1];
    }
  }

  lemma TwoTurns(scan: Scan, c: char, d: char)
    ensures Turns(scan, Plains([c, d]), true) == Turn(Turn(scan, Plain([c]), true), Plain([d]), true)
  {
    assert Plains([c, d]) == [Plain([c])] + [Plain([d])];
    TurnsAppend(scan, [Plain([c])], [Plain([d])], true);
    OneTurn(scan, Plain([c]));
    OneTurn(Turn(scan, Plain([c]), true), Plain([d]));
  }

  /** A word with nothing in it that the splitter or the trimming would react to. */
  predicate IsSolid(w: string) {
    w != "" && forall c | c in w :: IsPlain(c) && !IsSpace(c) && c != ';'
  }

  lemma SolidWord(w: string)
    requires IsSolid(w)
    ensures IsWord(w) && !IsSpace(w[|w| - 1])
  {
    assert w[|w| - 1] in w;
    forall c | c in w ensures c != ' ' && c != ';' && !IsQuote(c) {
      assert IsSpace(' ');
    }
  }

  /** What a word may stand behind here: one character and a break. */
  predicate IsLead(lead: string) {
    && |lead| == 2 && EndsNone(lead[0]) && !IsSpace(lead[0]) && lead[0] != ';'
    && EndsNone(lead[1]) && lead[1] != ';' && Breaks(lead)
  }

  /** The statements of a short text with a word and a semicolon in it: the semicolon ends the
      first one unless the word stands behind a space and starts with `begin`. */
  lemma SemicolonAfterWord(lead: string, w: string, b: char)
    requires IsLead(lead) && IsSolid(w) && IsSolid([b]) && EndsNone(b)
    ensures Split(lead + w + [';', b]) ==
            if Spaced(lead) && Begins(w, BEGIN) then [lead + w + [';', b]] else [lead + w, [b]]
  {
    assert b in [b];
    var tail, depth := [';', b], if Spaced(lead) then DepthAfterWord(0, w) else 0;
    AllPlain(lead, w, tail);
    BehindLead(lead, w);
    ReadInThree(lead, w, tail, Scan([], lead + w, depth));
    if depth > 0 {
      InBlock(lead + w, depth, b, tail);
    } else {
      AtTop(lead + w, b, tail);
    }
  }

  lemma AllPlain(lead: string, w: string, tail: string)
    requires IsSolid(w) && (forall c | c in lead + tail :: IsPlain(c))
    ensures forall c | c in lead + w + tail :: IsPlain(c)
  {
  }

  lemma ReadInThree(lead: string, w: string, tail: string, scan: Scan)
    requires forall c | c in lead + w + tail :: IsPlain(c)
    requires scan == Turns(Turns(START, Plains(lead), true), Plains(w), true)
    ensures Turns(START, Lexemes(lead + w + tail), true) == Turns(scan, Plains(tail), true)
  {
    PlainLexemes(lead + w + tail);
    PlainsInThree(lead, w, tail);
    TurnsAppend(START, Plains(lead) + Plains(w), Plains(tail), true);
    TurnsAppend(START, Plains(lead), Plains(w), true);
  }

  lemma PlainsInThree(a: string, b: string, c: string)
    ensures Plains(a + b + c) == Plains(a) + Plains(b) + Plains(c)
  {
  }

  lemma BehindLead(lead: string, w: string)
    requires IsLead(lead) && IsSolid(w)
    ensures Turns(Turns(START, Plains(lead), true), Plains(w), true)
         == Scan([], lead + w, if Spaced(lead) then DepthAfterWord(0, w) else 0)
    ensures Framed(lead + w) && !InQuote(lead + w)
  {
    LeadRead(lead);
    SolidWord(w);
    WordBehindBreak(Scan([], lead, 0), w);
    WordStaysOutside(lead, w);
    FramedByLead(lead, w);
  }

  lemma LeadRead(lead: string)
    requires IsLead(lead)
    ensures Turns(START, Plains(lead), true) == Scan([], lead, 0) && !InQuote(lead)
  {
    Lead(lead[0], lead[1]);
    assert lead == [lead[0], lead[1]];
  }

  lemma FramedByLead(lead: string, w: string)
    requires IsLead(lead) && w != "" && !IsSpace(w[|w| - 1])
    ensures Framed(lead + w)
  {
    assert (lead + w)[|lead + w| - 1] == w[|w| - 1] && (lead + w)[0] == lead[0];
  }

  lemma Lead(a: char, c: char)
    requires EndsNone(a) && a != ';' && EndsNone(c) && c != ';'
    ensures Turns(START, Plains([a, c]), true) == Scan([], [a, c], 0) && !InQuote([a, c])
  {
    TwoTurns(START, a, c);
    OtherCharacter(START, a);
    assert "" + [a] == [a] && [a] + [c] == [a, c];
    OtherCharacter(Scan([], [a], 0), c);
  }

  /** Text that trimming leaves alone. */
  predicate Framed(text: string) {
    text != "" && !IsSpace(text[0]) && !IsSpace(text[|text| - 1])
  }

  lemma InBlock(text: string, depth: nat, b: char, tail: string)
    requires Framed(text) && !InQuote(text) && depth > 0 && tail == [';', b]
    requires EndsNone(b) && !IsSpace(b)
    ensures Statements(Pieces(Turns(Scan([], text, depth), Plains(tail), true))) == [text + tail]
  {
    TwoTurns(Scan([], text, depth), ';', b);
    OtherCharacter(Scan([], text, depth), ';');
    OtherCharacter(Scan([], text + [';'], depth), b);
    assert text + [';'] + [b] == text + tail;
    LastOf(text, tail);
    OneStatement([], text + tail);
  }

  lemma LastOf(text: string, tail: string)
    requires text != "" && tail != ""
    ensures (text + tail)[0] == text[0] && (text + tail)[|text + tail| - 1] == tail[|tail| - 1]
  {
  }

  lemma AtTop(text: string, b: char, tail: string)
    requires Framed(text) && !InQuote(text) && tail == [';', b]
    requires EndsNone(b) && !IsSpace(b) && b != ';'
    ensures Statements(Pieces(Turns(Scan([], text, 0), Plains(tail), true))) == [text, [b]]
  {
    CutAndOneMore(text, b);
    TwoStatements(text, [b]);
  }

  lemma CutAndOneMore(text: string, b: char)
    requires EndsNone(b) && b != ';'
    ensures Turns(Scan([], text, 0), Plains([';', b]), true) == Scan([text], [b], 0)
  {
    TwoTurns(Scan([], text, 0), ';', b);
    assert [] + [text] == [text];
    OtherCharacter(Scan([text], "", 0), b);
    assert "" + [b] == [b];
  }

  lemma TwoStatements(first: string, last: string)
    requires Framed(first) && Framed(last)
    ensures Statements([first] + [last]) == [first, last]
  {
    OneStatement([first], last);
    OneStatement([], first);
    assert [] + [first] == [first];
  }

  lemma OneStatement(pieces: seq<string>, last: string)
    requires Framed(last)
    ensures Statements(pieces + [last]) == Statements(pieces) + [last]
  {
    TrimFixes(last);
    StatementsOf(pieces, last);
  }

  /** The word that the source's comment names. */
  lemma BeginningCountsAsBegin()
    ensures Split("a beginning;b") == ["a beginning;b"]
  {
    SpaceBreaks("a ", "beginning");
    SemicolonAfterWord("a ", "beginning", 'b');
    InOneText("a ", "beginning");
  }

  lemma InOneText(lead: string, w: string)
    requires lead == "a " && w == "beginning"
    ensures lead + w + [';', 'b'] == "a beginning;b"
  {
  }

  lemma SpaceBreaks(lead: string, w: string)
    requires lead == "a " && w == "beginning"
    ensures IsLead(lead) && Spaced(lead) && IsSolid(w) && Begins(w, BEGIN)
  {
  }

  /** A block that opens on a line of its own is cut at its first semicolon. */
  lemma BlockOnItsOwnLineIsCut()
    ensures Split("a\nbegin;b") == ["a\nbegin", "b"]
  {
    NewlineBreaks("a\n", "begin");
    SemicolonAfterWord("a\n", "begin", 'b');
    assert "a\n" + "begin" == "a\nbegin";
    assert "a\nbegin" + [';', 'b'] == "a\nbegin;b";
  }

  lemma NewlineBreaks(lead: string, w: string)
    requires lead == "a\n" && w == "begin"
    ensures IsLead(lead) && !Spaced(lead) && IsSolid(w)
  {
  }
}
