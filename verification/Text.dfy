/** String operations the modelled code takes from its standard library. */
module Text {
  import opened Wrappers

  /** Unicode `White_Space`, what trimming removes. */
  predicate IsSpace(c: char) {
    || '\U{9}' <= c <= '\U{D}' || c == ' ' || c == '\U{85}' || c == '\U{A0}' || c == '\U{1680}'
    || '\U{2000}' <= c <= '\U{200A}' || c == '\U{2028}' || c == '\U{2029}' || c == '\U{202F}'
    || c == '\U{205F}' || c == '\U{3000}'
  }

  function TrimStart(s: string): string {
    if s != "" && IsSpace(s[0]) then TrimStart(s[1..]) else s
  }

  function TrimEnd(s: string): string {
    if s != "" && IsSpace(s[|s| - 1]) then TrimEnd(s[..|s| - 1]) else s
  }

  function Trim(s: string): string {
    TrimEnd(TrimStart(s))
  }

  predicate StartsWith(s: string, prefix: string) {
    |prefix| <= |s| && s[..|prefix|] == prefix
  }

  predicate EndsWith(s: string, suffix: string) {
    |suffix| <= |s| && s[|s| - |suffix|..] == suffix
  }

  /** `pattern` occurs in `s` at index `i`. */
  predicate OccursAt(s: string, pattern: string, i: nat) {
    i + |pattern| <= |s| && s[i..i + |pattern|] == pattern
  }

  /** The first occurrence at or after `from`. */
  function FindFrom(s: string, pattern: string, from: nat): (r: Option<nat>)
    ensures r.Some? ==> from <= r.value && r.value + |pattern| <= |s|
    decreases |s| - from
  {
    if from + |pattern| > |s| then None
    else if OccursAt(s, pattern, from) then Some(from)
    else FindFrom(s, pattern, from + 1)
  }

  /** It is the first, and there is none only when the pattern does not occur. */
  lemma {:induction false} FindsFirst(s: string, pattern: string, from: nat)
    ensures var r := FindFrom(s, pattern, from);
            && (r.Some? ==> OccursAt(s, pattern, r.value) && forall i: nat | from <= i < r.value :: !OccursAt(s, pattern, i))
            && (r.None? ==> forall i: nat | from <= i :: !OccursAt(s, pattern, i))
    decreases |s| - from
  {
    if from + |pattern| <= |s| && !OccursAt(s, pattern, from) {
      FindsFirst(s, pattern, from + 1);
    }
  }

  lemma FoundAt(s: string, pattern: string, at: nat)
    requires OccursAt(s, pattern, at) && forall i: nat | i < at :: !OccursAt(s, pattern, i)
    ensures FindFrom(s, pattern, 0) == Some(at)
  {
    FindsFirst(s, pattern, 0);
  }

  predicate Holds(s: string, pattern: string) {
    FindFrom(s, pattern, 0).Some?
  }

  /** The first character comes back nowhere, so no two occurrences overlap. */
  ghost predicate Unrepeated(pattern: string) {
    pattern != "" && pattern[0] !in pattern[1..]
  }

  lemma NoOverlap(s: string, pattern: string, i: nat, j: nat)
    requires Unrepeated(pattern) && OccursAt(s, pattern, i) && OccursAt(s, pattern, j) && i < j
    ensures i + |pattern| <= j
  {
    assert s[j..j + |pattern|][0] == s[j];
    forall m | i < m < i + |pattern| ensures s[m] != pattern[0] {
      assert s[i..i + |pattern|][m - i] == s[m];
      assert pattern[1..][m - i - 1] == pattern[m - i];
    }
  }

  /** What is printed behind a text that does not hold it is found where it was printed. */
  lemma PrintedIsFound(before: string, pattern: string, rest: string)
    requires Unrepeated(pattern) && !Holds(before, pattern)
    ensures FindFrom(before + pattern + rest, pattern, 0) == Some(|before|)
    ensures (before + pattern + rest)[..|before|] == before
    ensures (before + pattern + rest)[|before| + |pattern|..] == rest
  {
    var s := before + pattern + rest;
    FindsFirst(before, pattern, 0);
    assert OccursAt(s, pattern, |before|);
    forall i: nat | i < |before| ensures !OccursAt(s, pattern, i) {
      if i + |pattern| <= |before| {
        assert s[i..i + |pattern|] == before[i..i + |pattern|];
        assert !OccursAt(before, pattern, i);
      } else if OccursAt(s, pattern, i) {
        NoOverlap(s, pattern, i, |before|);
      }
    }
    FoundAt(s, pattern, |before|);
  }

  lemma TrimFixes(s: string)
    requires s != "" && !IsSpace(s[0]) && !IsSpace(s[|s| - 1])
    ensures Trim(s) == s
  {
  }

  /** Without the slashes at its end. */
  function TrimSlashes(s: string): string {
    if s != "" && s[|s| - 1] == '/' then TrimSlashes(s[..|s| - 1]) else s
  }

  // ----- lines

  /** Lines end at a newline; what follows the last one is a line unless it is empty. A
      carriage return stays at the end of its line: whoever reads one here trims it. */
  function Lines(text: string): seq<string>
    decreases |text|
  {
    if text == "" then []
    else
      match FindFrom(text, "\n", 0)
      case None => [text]
      case Some(end) => [text[..end]] + Lines(text[end + 1..])
  }

  predicate EndsLine(text: string) {
    text == "" || text[|text| - 1] == '\n'
  }

  lemma FindInFront(a: string, b: string, pattern: string)
    requires FindFrom(a, pattern, 0).Some?
    ensures FindFrom(a + b, pattern, 0) == FindFrom(a, pattern, 0)
  {
    FindsFirst(a, pattern, 0);
    var at := FindFrom(a, pattern, 0).value;
    forall i: nat | i <= at ensures OccursAt(a + b, pattern, i) <==> OccursAt(a, pattern, i) {
      assert (a + b)[i..i + |pattern|] == a[i..i + |pattern|];
    }
    FoundAt(a + b, pattern, at);
  }

  lemma NewlineFound(line: string, rest: string)
    requires '\n' !in line
    ensures FindFrom(line + "\n" + rest, "\n", 0) == Some(|line|)
    ensures (line + "\n" + rest)[..|line|] == line && (line + "\n" + rest)[|line| + 1..] == rest
  {
    FindsFirst(line, "\n", 0);
    forall i: nat | i < |line| ensures !OccursAt(line, "\n", i) {
      assert line[i..i + 1][0] == line[i];
    }
    PrintedIsFound(line, "\n", rest);
  }

  lemma HasNewline(text: string)
    requires text != "" && EndsLine(text)
    ensures FindFrom(text, "\n", 0).Some?
  {
    FindsFirst(text, "\n", 0);
    assert OccursAt(text, "\n", |text| - 1);
  }

  /** The front of `text` up to and with its first newline, and the rest. */
  lemma FirstLine(text: string, more: string) returns (line: string, rest: string)
    requires FindFrom(text, "\n", 0).Some?
    ensures |rest| < |text| && (text != "" && EndsLine(text) <==> EndsLine(rest))
    ensures Lines(text) == [line] + Lines(rest)
    ensures Lines(text + more) == [line] + Lines(rest + more)
  {
    var end := FindFrom(text, "\n", 0).value;
    FindsFirst(text, "\n", 0);
    assert text[end] == text[end..end + 1][0];
    line, rest := text[..end], text[end + 1..];
    FindInFront(text, more, "\n");
    assert (text + more)[..end] == line && (text + more)[end + 1..] == rest + more;
  }

  /** Text that ends its last line can be read apart from what follows. */
  lemma {:induction false} LinesAppend(text: string, more: string)
    requires EndsLine(text)
    ensures Lines(text + more) == Lines(text) + Lines(more)
    decreases |text|
  {
    if text == "" {
      assert text + more == more;
    } else {
      HasNewline(text);
      var line, rest := FirstLine(text, more);
      LinesAppend(rest, more);
    }
  }

  // ----- order

  /** How Rust compares strings: by code point, a prefix first. */
  predicate StringLess(a: string, b: string) {
    b != "" && (a == "" || a[0] < b[0] || (a[0] == b[0] && StringLess(a[1..], b[1..])))
  }

  lemma {:induction false} StringLessIsStrict(a: string, b: string, c: string)
    ensures !StringLess(a, a)
    ensures StringLess(a, b) && StringLess(b, c) ==> StringLess(a, c)
    ensures a != b ==> StringLess(a, b) || StringLess(b, a)
    decreases |a|
  {
    if a != "" && b != "" {
      StringLessIsStrict(a[1..], b[1..], if c == "" then "" else c[1..]);
      assert a == [a[0]] + a[1..] && b == [b[0]] + b[1..];
    } else if a != "" {
      StringLessIsStrict(a[1..], b, c);
    }
  }

  // ----- what trimming takes off

  /** Trimming cuts spaces off both ends and stops at the first other character. */
  lemma {:induction false} TrimEndCuts(s: string)
    ensures |TrimEnd(s)| <= |s| && TrimEnd(s) == s[..|TrimEnd(s)|]
    ensures forall k | |TrimEnd(s)| <= k < |s| :: IsSpace(s[k])
    ensures TrimEnd(s) != "" ==> !IsSpace(s[|TrimEnd(s)| - 1])
  {
    if s != "" && IsSpace(s[|s| - 1]) {
      TrimEndCuts(s[..|s| - 1]);
    }
  }

  lemma {:induction false} TrimStartCuts(s: string) returns (i: nat)
    ensures i <= |s| && TrimStart(s) == s[i..]
    ensures forall k | 0 <= k < i :: IsSpace(s[k])
  {
    i := 0;
    if s != "" && IsSpace(s[0]) {
      var j := TrimStartCuts(s[1..]);
      i := j + 1;
      assert s[1..][j..] == s[i..];
      forall k | 0 <= k < i ensures IsSpace(s[k]) {
        assert k > 0 ==> IsSpace(s[1..][k - 1]);
      }
    }
  }

  lemma {:induction false} StartStays(s: string)
    requires s == "" || !IsSpace(s[0])
    ensures TrimEnd(s) == "" || !IsSpace(TrimEnd(s)[0])
  {
    TrimEndCuts(s);
    assert TrimEnd(s) != "" ==> TrimEnd(s)[0] == s[..|TrimEnd(s)|][0];
  }

  lemma {:induction false} StartTrimmed(s: string)
    ensures TrimStart(s) == "" || !IsSpace(TrimStart(s)[0])
  {
    if s != "" && IsSpace(s[0]) {
      StartTrimmed(s[1..]);
    }
  }

  lemma TrimmedEnds(s: string)
    ensures Trim(s) != "" ==> !IsSpace(Trim(s)[0]) && !IsSpace(Trim(s)[|Trim(s)| - 1])
    ensures Trim(Trim(s)) == Trim(s)
  {
    StartTrimmed(s);
    StartStays(TrimStart(s));
    TrimEndCuts(TrimStart(s));
    if Trim(s) != "" {
      TrimFixes(Trim(s));
    }
  }

  predicate Blank(s: string) {
    forall c | c in s :: IsSpace(c)
  }

  /** Space at the ends goes, all of it and nothing else. */
  lemma TrimOf(before: string, text: string, after: string)
    requires Blank(before) && Blank(after)
    requires text == "" || (!IsSpace(text[0]) && !IsSpace(text[|text| - 1]))
    ensures text != "" ==> Trim(before + text + after) == text
    ensures text == "" ==> Trim(before + after) == ""
  {
    TrimStartOf(before, text + after);
    if text != "" {
      assert before + text + after == before + (text + after);
      assert (text + after)[0] == text[0];
      TrimEndOf(text, after);
    } else {
      TrimStartOf(before, after);
      BlankGone(after);
      assert text + after == after;
    }
  }

  lemma {:induction false} TrimStartOf(before: string, rest: string)
    requires Blank(before)
    ensures TrimStart(before + rest) == TrimStart(rest)
  {
    if before == "" {
      assert before + rest == rest;
    } else {
      assert before[0] in before && forall c | c in before[1..] :: c in before;
      TrimStartOf(before[1..], rest);
      assert (before + rest)[1..] == before[1..] + rest;
    }
  }

  lemma {:induction false} TrimEndOf(text: string, after: string)
    requires Blank(after) && (text == "" || !IsSpace(text[|text| - 1]))
    ensures TrimEnd(text + after) == text
    decreases |after|
  {
    if after == "" {
      assert text + after == text;
    } else {
      var n := |after| - 1;
      assert after[n] in after && forall c | c in after[..n] :: c in after;
      TrimEndOf(text, after[..n]);
      assert (text + after)[..|text| + n] == text + after[..n];
    }
  }

  lemma {:induction false} BlankGone(s: string)
    requires Blank(s)
    ensures TrimStart(s) == ""
  {
    if s != "" {
      assert s[0] in s && forall c | c in s[1..] :: c in s;
      BlankGone(s[1..]);
    }
  }

  /** The characters that are space, by their numbers. */
  lemma SpaceIff(c: char)
    ensures IsSpace(c) <==>
              c as int in {0x9, 0xA, 0xB, 0xC, 0xD, 0x20, 0x85, 0xA0, 0x1680, 0x2000, 0x2001, 0x2002, 0x2003, 0x2004, 0x2005,
                           0x2006, 0x2007, 0x2008, 0x2009, 0x200A, 0x2028, 0x2029, 0x202F, 0x205F, 0x3000}
  {
  }

  /** The order of strings is that of the first characters in which they differ, and a text
      comes before every longer one that it begins. */
  lemma {:induction false} FirstDifferenceDecides(front: string, x: char, a: string, y: char, b: string)
    ensures x != y ==> (StringLess(front + [x] + a, front + [y] + b) <==> x < y)
    ensures StringLess(front, front + [x] + a) && !StringLess(front + [x] + a, front)
  {
    var s, t := front + [x] + a, front + [y] + b;
    if front != "" {
      FirstDifferenceDecides(front[1..], x, a, y, b);
      assert s[1..] == front[1..] + [x] + a && t[1..] == front[1..] + [y] + b;
    }
  }

  lemma AffixesAreThere(a: string, b: string)
    ensures StartsWith(a + b, a) && EndsWith(a + b, b) && OccursAt(a + b, b, |a|)
  {
  }

  /** A line and what is behind it. */
  lemma LineFirst(line: string, rest: string)
    requires '\n' !in line
    ensures Lines(line + "\n" + rest) == [line] + Lines(rest)
    ensures line != "" ==> Lines(line) == [line]
  {
    NewlineFound(line, rest);
    FindsFirst(line, "\n", 0);
    forall i: nat ensures !OccursAt(line, "\n", i) {
      if i < |line| {
        assert line[i..i + 1][0] == line[i];
      }
    }
  }
}
