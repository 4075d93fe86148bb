/**
 Splitting a migration file into statements: a scanner over quotes, comments and
 BEGIN/END depth that also rescans its own buffer at every ordinary character.
 */
module SqlSplitter {
  import opened Text

  // ----- lexemes

  /** One turn of the scanner's main loop consumes one of these. */
  datatype Lexeme = Quoted(text: string) | LineComment(text: string) | BlockComment(text: string) | Plain(text: string)

  predicate IsQuote(c: char) { c == '\'' || c == '"' || c == '`' }

  /** Characters up to and including the quote that closes; a doubled quote does not close. */
  function QuoteLength(s: string, quote: char): (n: nat)
    ensures n <= |s|
  {
    if s == "" then 0
    else if s[0] != quote then 1 + QuoteLength(s[1..], quote)
    else if |s| > 1 && s[1] == quote then 2 + QuoteLength(s[2..], quote)
    else 1
  }

  /** Characters up to and including the end of the line. */
  function LineLength(s: string): (n: nat)
    ensures n <= |s|
  {
    if s == "" then 0 else if s[0] == '\n' then 1 else 1 + LineLength(s[1..])
  }

  /** Characters up to and including the first slash that follows a star. */
  function BlockLength(s: string, prev: char): (n: nat)
    ensures n <= |s|
  {
    if s == "" then 0 else if prev == '*' && s[0] == '/' then 1 else 1 + BlockLength(s[1..], s[0])
  }

  predicate OpensLineComment(s: string) { |s| > 1 && s[0] == '-' && s[1] == '-' }

  predicate OpensBlockComment(s: string) { |s| > 1 && s[0] == '/' && s[1] == '*' }

  function NextLexeme(s: string): (l: Lexeme)
    requires s != ""
    ensures l.text != "" && l.text <= s
  {
    if IsQuote(s[0]) then Quoted(s[..1 + QuoteLength(s[1..], s[0])])
    else if OpensLineComment(s) then LineComment(s[..2 + LineLength(s[2..])])
    else if OpensBlockComment(s) then BlockComment(s[..2 + BlockLength(s[2..], '\0')])
    else Plain(s[..1])
  }

  function Lexemes(s: string): seq<Lexeme>
    decreases |s|
  {
    if s == "" then [] else [NextLexeme(s)] + Lexemes(s[|NextLexeme(s).text|..])
  }

  // ----- the scanner

  /** The main loop's variables. `pieces` are the texts between cuts, before trimming. */
  datatype Scan = Scan(pieces: seq<string>, current: string, depth: nat)

  const START := Scan([], "", 0)

  datatype QuoteState = QuoteState(single: bool, double: bool)

  const OUTSIDE := QuoteState(false, false)

  function Toggle(q: QuoteState, c: char): QuoteState {
    if c == '\'' && !q.double then q.(single := !q.single)
    else if c == '"' && !q.single then q.(double := !q.double)
    else q
  }

  function QuotesAfter(s: string, q: QuoteState): QuoteState {
    if s == "" then q else Toggle(QuotesAfter(s[..|s| - 1], q), s[|s| - 1])
  }

  /** The rescan: quotes seen from the start of the buffer, backticks ignored. */
  predicate InQuote(s: string) {
    QuotesAfter(s, OUTSIDE) != OUTSIDE
  }

  function Lower(c: char): char {
    if 'A' <= c <= 'Z' then c - 'A' + 'a' else c
  }

  predicate EndsWithKeyword(s: string, keyword: string) {
    |keyword| <= |s| && forall i | 0 <= i < |keyword| :: Lower(s[|s| - |keyword| + i]) == keyword[i]
  }

  /** The keywords carry their leading space; nothing is asked of what follows them. */
  function DepthAfter(current: string, depth: nat): nat {
    if EndsWithKeyword(current, " begin") then depth + 1
    else if EndsWithKeyword(current, " end") then (if depth == 0 then 0 else depth - 1)
    else depth
  }

  /** What a lexeme leaves in the buffer. */
  function Kept(l: Lexeme): string {
    match l
    case Quoted(text) => text
    case LineComment(text) => if text != "" && text[|text| - 1] == '\n' then "\n" else ""
    case BlockComment(_) => ""
    case Plain(text) => text
  }

  predicate Cuts(scan: Scan, l: Lexeme) {
    l == Plain(";") && scan.depth == 0
  }

  /** One turn of the main loop; `rescan` says whether the buffer is rescanned. */
  function Turn(scan: Scan, l: Lexeme, rescan: bool): Scan {
    if Cuts(scan, l) then Scan(scan.pieces + [scan.current], "", 0)
    else
      var current := scan.current + Kept(l);
      var depth := if l.Plain? && !(rescan && InQuote(current)) then DepthAfter(current, scan.depth) else scan.depth;
      Scan(scan.pieces, current, depth)
  }

  function Turns(scan: Scan, lexemes: seq<Lexeme>, rescan: bool): Scan
    decreases |lexemes|
  {
    if lexemes == [] then scan else Turns(Turn(scan, lexemes[0], rescan), lexemes[1..], rescan)
  }

  function Pieces(scan: Scan): seq<string> {
    scan.pieces + [scan.current]
  }

  /** Trimmed pieces, the empty ones dropped. */
  function Statements(pieces: seq<string>): seq<string> {
    if pieces == [] then []
    else
      var last := Trim(pieces[|pieces| - 1]);
      Statements(pieces[..|pieces| - 1]) + (if last == "" then [] else [last])
  }

  function Split(sql: string): seq<string> {
    Statements(Pieces(Turns(START, Lexemes(sql), true)))
  }

  // ----- the loops of the source

  method InQuoteScan(s: string) returns (inQuote: bool)
    ensures inQuote <==> InQuote(s)
  {
    var inSingle, inDouble := false, false;
    for i := 0 to |s|
      invariant QuoteState(inSingle, inDouble) == QuotesAfter(s[..i], OUTSIDE)
    {
      assert s[..i + 1][..i] == s[..i];
      if s[i] == '\'' && !inDouble {
        inSingle := !inSingle;
      } else if s[i] == '"' && !inSingle {
        inDouble := !inDouble;
      }
    }
    assert s[..|s|] == s;
    inQuote := inSingle || inDouble;
  }

  lemma Extend(sql: string, from: nat, next: nat)
    requires from <= next < |sql|
    ensures sql[from..next] + [sql[next]] == sql[from..next + 1]
  {
  }

  lemma QuoteLengthAt(sql: string, i: nat, quote: char)
    requires i < |sql|
    ensures QuoteLength(sql[i..], quote) ==
              if sql[i] != quote then 1 + QuoteLength(sql[i + 1..], quote)
              else if i + 1 < |sql| && sql[i + 1] == quote then 2 + QuoteLength(sql[i + 2..], quote)
              else 1
  {
    assert sql[i..][1..] == sql[i + 1..];
    if i + 1 < |sql| {
      assert sql[i..][2..] == sql[i + 2..];
    }
  }

  /** The quoted-string loop, from just after the opening quote at `from - 1`. */
  method ScanQuoted(sql: string, from: nat, quote: char) returns (pushed: string, next: nat)
    requires from <= |sql|
    ensures next == from + QuoteLength(sql[from..], quote)
    ensures pushed == sql[from..next]
  {
    pushed, next := "", from;
    while next < |sql|
      invariant from <= next <= |sql|
      invariant pushed == sql[from..next]
      invariant QuoteLength(sql[from..], quote) == next - from + QuoteLength(sql[next..], quote)
    {
      QuoteLengthAt(sql, next, quote);
      Extend(sql, from, next);
      var inner := sql[next];
      pushed, next := pushed + [inner], next + 1;
      if inner == quote {
        if next < |sql| && sql[next] == quote {
          Extend(sql, from, next);
          pushed, next := pushed + [sql[next]], next + 1;
        } else {
          return;
        }
      }
    }
  }

  method ScanLine(sql: string, from: nat) returns (pushed: string, next: nat)
    requires from <= |sql|
    ensures next == from + LineLength(sql[from..])
    ensures pushed == if from < next && sql[next - 1] == '\n' then "\n" else ""
  {
    pushed, next := "", from;
    while next < |sql|
      invariant from <= next <= |sql|
      invariant forall k | from <= k < next :: sql[k] != '\n'
      invariant pushed == ""
      invariant LineLength(sql[from..]) == next - from + LineLength(sql[next..])
    {
      assert sql[next..][1..] == sql[next + 1..];
      next := next + 1;
      if sql[next - 1] == '\n' {
        pushed := "\n";
        return;
      }
    }
  }

  method ScanBlock(sql: string, from: nat) returns (next: nat)
    requires from <= |sql|
    ensures next == from + BlockLength(sql[from..], '\0')
  {
    next := from;
    var prev := '\0';
    while next < |sql|
      invariant from <= next <= |sql|
      invariant BlockLength(sql[from..], '\0') == next - from + BlockLength(sql[next..], prev)
    {
      assert sql[next..][1..] == sql[next + 1..];
      var c := sql[next];
      next := next + 1;
      if prev == '*' && c == '/' {
        return;
      }
      prev := c;
    }
  }

  /** The lexeme that starts at an index, in terms of indices: one lemma a kind. */
  lemma QuotedAt(sql: string, at: nat)
    requires at < |sql| && IsQuote(sql[at])
    ensures NextLexeme(sql[at..]) == Quoted(sql[at..at + 1 + QuoteLength(sql[at + 1..], sql[at])])
  {
    var s := sql[at..];
    assert s[1..] == sql[at + 1..];
    var n := 1 + QuoteLength(s[1..], s[0]);
    assert s[..n] == sql[at..at + n];
  }

  lemma LineCommentAt(sql: string, at: nat)
    requires at + 1 < |sql| && sql[at] == '-' && sql[at + 1] == '-'
    ensures NextLexeme(sql[at..]) == LineComment(sql[at..at + 2 + LineLength(sql[at + 2..])])
  {
    var s := sql[at..];
    assert s[2..] == sql[at + 2..];
    var n := 2 + LineLength(s[2..]);
    assert s[..n] == sql[at..at + n];
  }

  lemma BlockCommentAt(sql: string, at: nat)
    requires at + 1 < |sql| && sql[at] == '/' && sql[at + 1] == '*'
    ensures NextLexeme(sql[at..]) == BlockComment(sql[at..at + 2 + BlockLength(sql[at + 2..], '\0')])
  {
    var s := sql[at..];
    assert s[2..] == sql[at + 2..];
    var n := 2 + BlockLength(s[2..], '\0');
    assert s[..n] == sql[at..at + n];
  }

  lemma PlainAt(sql: string, at: nat)
    requires at < |sql| && !IsQuote(sql[at])
    requires !(at + 1 < |sql| && sql[at] == '-' && sql[at + 1] == '-')
    requires !(at + 1 < |sql| && sql[at] == '/' && sql[at + 1] == '*')
    ensures NextLexeme(sql[at..]) == Plain([sql[at]])
  {
    assert sql[at..][..1] == [sql[at]];
  }

  /** Where scanning ends up from `at` on. */
  ghost function Rest(sql: string, at: nat, scan: Scan, rescan: bool): Scan
    requires at <= |sql|
  {
    Turns(scan, Lexemes(sql[at..]), rescan)
  }

  lemma RestOfAll(sql: string, scan: Scan, rescan: bool)
    ensures Rest(sql, 0, scan, rescan) == Turns(scan, Lexemes(sql), rescan)
    ensures Rest(sql, |sql|, scan, rescan) == scan
  {
    assert sql[0..] == sql;
  }

  lemma RestStep(sql: string, at: nat, scan: Scan, rescan: bool)
    requires at < |sql|
    ensures var l := NextLexeme(sql[at..]);
            && at < at + |l.text| <= |sql|
            && Rest(sql, at, scan, rescan) == Rest(sql, at + |l.text|, Turn(scan, l, rescan), rescan)
  {
    var l := NextLexeme(sql[at..]);
    assert sql[at..][|l.text|..] == sql[at + |l.text|..];
    assert ([l] + Lexemes(sql[at + |l.text|..]))[1..] == Lexemes(sql[at + |l.text|..]);
  }

  lemma StatementsOf(pieces: seq<string>, last: string)
    ensures Statements(pieces + [last]) == Statements(pieces) + (if Trim(last) == "" then [] else [Trim(last)])
  {
    assert (pieces + [last])[..|pieces|] == pieces;
  }

  /** One turn of the main loop of `split_sql` on its variables. */
  method MainTurn(sql: string, at: nat, statements: seq<string>, current: string, beginDepth: nat, ghost pieces: seq<string>)
    returns (statements': seq<string>, current': string, beginDepth': nat, next: nat, ghost pieces': seq<string>)
    requires at < |sql| && statements == Statements(pieces)
    ensures next == at + |NextLexeme(sql[at..]).text| <= |sql|
    ensures Scan(pieces', current', beginDepth') == Turn(Scan(pieces, current, beginDepth), NextLexeme(sql[at..]), true)
    ensures statements' == Statements(pieces')
  {
    statements', current', beginDepth', pieces' := statements, current, beginDepth, pieces;
    var ch := sql[at];
    next := at + 1;
    if IsQuote(ch) {
      QuotedAt(sql, at);
      var body;
      body, next := ScanQuoted(sql, next, ch);
      assert sql[at..next] == [ch] + body;
      current' := current + ([ch] + body);
    } else if ch == '-' && next < |sql| && sql[next] == '-' {
      LineCommentAt(sql, at);
      var kept;
      kept, next := ScanLine(sql, next + 1);
      assert sql[at..next][next - at - 1] == sql[next - 1];
      current' := current + kept;
    } else if ch == '/' && next < |sql| && sql[next] == '*' {
      BlockCommentAt(sql, at);
      next := ScanBlock(sql, next + 1);
      assert current + "" == current;
    } else if ch == ';' && beginDepth == 0 {
      PlainAt(sql, at);
      var trimmed := Trim(current);
      pieces' := pieces + [current];
      StatementsOf(pieces, current);
      if trimmed != "" {
        statements' := statements + [trimmed];
      }
      current' := "";
    } else {
      PlainAt(sql, at);
      current' := current + [ch];
      var inQuote := InQuoteScan(current');
      if !inQuote {
        beginDepth' := DepthAfter(current', beginDepth);
      }
    }
  }

  /** `split_sql`: the scanner as written computes `Split`. */
  method SplitSql(sql: string) returns (statements: seq<string>)
    ensures statements == Split(sql)
  {
    statements := [];
    var current, beginDepth, i := "", 0, 0;
    ghost var pieces := [];
    RestOfAll(sql, START, true);
    while i < |sql|
      invariant i <= |sql|
      invariant statements == Statements(pieces)
      invariant Rest(sql, 0, START, true) == Rest(sql, i, Scan(pieces, current, beginDepth), true)
      decreases |sql| - i
    {
      RestStep(sql, i, Scan(pieces, current, beginDepth), true);
      statements, current, beginDepth, i, pieces := MainTurn(sql, i, statements, current, beginDepth, pieces);
    }
    RestOfAll(sql, Scan(pieces, current, beginDepth), true);
    StatementsOf(pieces, current);
    var trimmed := Trim(current);
    if trimmed != "" {
      statements := statements + [trimmed];
    }
  }
}
