/** Removing `<think>` blocks from a sub-agent's answer. */
module ThinkTags {
  import opened Wrappers
  import opened Text
  import opened Sequences

  const OPEN := "<think>"
  const CLOSE := "</think>"

  /** What stands before the first opening tag, and what is left to look at behind the next
      closing tag: nothing when there is no opening tag or it is never closed. */
  function Cut(open: string, close: string, text: string): (r: (string, Option<string>))
    requires open != "" && close != ""
    ensures r.1.Some? ==> |r.1.value| < |text|
  {
    match FindFrom(text, open, 0)
    case None => (text, None)
    case Some(start) =>
      var after := text[start + |open|..];
      match FindFrom(after, close, 0)
      case None => (text[..start], None)
      case Some(end) => (text[..start], Some(after[end + |close|..]))
  }

  /** The text outside the blocks. */
  function Outside(open: string, close: string, text: string): string
    requires open != "" && close != ""
    decreases |text|
  {
    var (piece, rest) := Cut(open, close, text);
    if rest.None? then piece else piece + Outside(open, close, rest.value)
  }

  /** The same with what has been kept so far in front. */
  function KeptOutside(open: string, close: string, kept: string, text: string): string
    requires open != "" && close != ""
    decreases |text|
  {
    var (piece, rest) := Cut(open, close, text);
    if rest.None? then kept + piece else KeptOutside(open, close, kept + piece, rest.value)
  }

  lemma {:induction false} KeptIsInFront(open: string, close: string, kept: string, text: string)
    requires open != "" && close != ""
    ensures KeptOutside(open, close, kept, text) == kept + Outside(open, close, text)
    decreases |text|
  {
    var (piece, rest) := Cut(open, close, text);
    if rest.Some? {
      KeptIsInFront(open, close, kept + piece, rest.value);
      Associates(kept, piece, Outside(open, close, rest.value));
    }
  }

  method StripThinkTags(text: string) returns (r: string)
    ensures r == Trim(Outside(OPEN, CLOSE, text))
  {
    var result := StripTags(OPEN, CLOSE, text);
    r := Trim(result);
  }

  method StripTags(open: string, close: string, text: string) returns (result: string)
    requires open != "" && close != ""
    ensures result == Outside(open, close, text)
  {
    result := "";
    var rest := text;
    while true
      invariant KeptOutside(open, close, result, rest) == KeptOutside(open, close, "", text)
      decreases |rest|
    {
      ghost var cut := Cut(open, close, rest);
      var start := FindFrom(rest, open, 0);
      if start.None? {
        assert cut == (rest, None);
        break;
      }
      var before := rest[..start.value];
      var after := rest[start.value + |open|..];
      var end := FindFrom(after, close, 0);
      if end.None? {
        assert cut == (before, None);
        NothingMore(result + before);
        result, rest := result + before, "";
        break;
      }
      var next := after[end.value + |close|..];
      assert cut == (before, Some(next));
      result, rest := result + before, next;
    }
    result := result + rest;
    KeptIsInFront(open, close, "", text);
    NothingBefore(Outside(open, close, text));
  }

  lemma NothingMore(a: string)
    ensures a + "" == a
  {
  }

  lemma NothingBefore(a: string)
    ensures "" + a == a
  {
  }

  // ----- texts printed with blocks

  /** `texts` with a block between each two, and possibly one that is never closed. */
  function Printed(open: string, close: string, texts: seq<string>, blocks: seq<string>, unclosed: Option<string>): string
    requires |texts| == |blocks| + 1
  {
    if blocks == [] then
      if unclosed.Some? then texts[0] + open + unclosed.value else texts[0]
    else texts[0] + open + (blocks[0] + close + Printed(open, close, texts[1..], blocks[1..], unclosed))
  }

  function Concat(texts: seq<string>): string {
    if texts == [] then "" else texts[0] + Concat(texts[1..])
  }

  ghost predicate Clear(open: string, close: string, texts: seq<string>, blocks: seq<string>, unclosed: Option<string>) {
    && |texts| == |blocks| + 1
    && (forall i | 0 <= i < |texts| :: !Holds(texts[i], open))
    && (forall i | 0 <= i < |blocks| :: !Holds(blocks[i], close))
    && (unclosed.Some? ==> !Holds(unclosed.value, close))
  }

  lemma OutsideUnclosed(open: string, close: string, before: string, after: string)
    requires Unrepeated(open) && close != "" && !Holds(before, open) && !Holds(after, close)
    ensures Outside(open, close, before + open + after) == before
  {
    PrintedIsFound(before, open, after);
  }

  lemma OutsideBlock(open: string, close: string, before: string, inside: string, rest: string)
    requires Unrepeated(open) && Unrepeated(close) && !Holds(before, open) && !Holds(inside, close)
    ensures Outside(open, close, before + open + (inside + close + rest)) == before + Outside(open, close, rest)
  {
    PrintedIsFound(before, open, inside + close + rest);
    PrintedIsFound(inside, close, rest);
  }

  /** Exactly the texts outside the blocks survive; an unclosed tag takes the rest with it. */
  lemma {:induction false} BlocksVanish(open: string, close: string, texts: seq<string>, blocks: seq<string>,
                                        unclosed: Option<string>)
    requires Unrepeated(open) && Unrepeated(close) && Clear(open, close, texts, blocks, unclosed)
    ensures Outside(open, close, Printed(open, close, texts, blocks, unclosed)) == Concat(texts)
    decreases |blocks|
  {
    if blocks == [] {
      OneText(texts);
      if unclosed.Some? {
        OutsideUnclosed(open, close, texts[0], unclosed.value);
      }
    } else {
      BlocksVanish(open, close, texts[1..], blocks[1..], unclosed);
      OutsideBlock(open, close, texts[0], blocks[0], Printed(open, close, texts[1..], blocks[1..], unclosed));
    }
  }

  lemma OneText(texts: seq<string>)
    requires |texts| == 1
    ensures Concat(texts) == texts[0]
  {
    assert Concat(texts[1..]) == "";
  }

  /** What `strip_think_tags` makes of an answer printed with blocks. */
  lemma ThinkBlocksVanish(texts: seq<string>, blocks: seq<string>, unclosed: Option<string>)
    requires Clear(OPEN, CLOSE, texts, blocks, unclosed)
    ensures Trim(Outside(OPEN, CLOSE, Printed(OPEN, CLOSE, texts, blocks, unclosed))) == Trim(Concat(texts))
  {
    TagsAreUnrepeated();
    BlocksVanish(OPEN, CLOSE, texts, blocks, unclosed);
  }

  lemma TagsAreUnrepeated()
    ensures Unrepeated(OPEN) && Unrepeated(CLOSE)
  {
    assert forall i | 0 <= i < |OPEN[1..]| :: OPEN[1..][i] != '<';
    assert forall i | 0 <= i < |CLOSE[1..]| :: CLOSE[1..][i] != '<';
  }

  /** Every text is printed that way, so what becomes of any input is known. */
  lemma {:induction false} EveryTextIsPrinted(open: string, close: string, text: string)
    returns (texts: seq<string>, blocks: seq<string>, unclosed: Option<string>)
    requires open != "" && close != ""
    ensures Clear(open, close, texts, blocks, unclosed)
    ensures text == Printed(open, close, texts, blocks, unclosed)
    decreases |text|
  {
    var start := FindFrom(text, open, 0);
    if start.None? {
      texts, blocks, unclosed := [text], [], None;
    } else {
      var before, after := CutAt(text, open, start.value);
      var end := FindFrom(after, close, 0);
      if end.None? {
        texts, blocks, unclosed := [before], [], Some(after);
      } else {
        var inside, rest := CutAt(after, close, end.value);
        var ts, bs, u := EveryTextIsPrinted(open, close, rest);
        texts, blocks, unclosed := [before] + ts, [inside] + bs, u;
        assert texts[1..] == ts && blocks[1..] == bs;
      }
    }
  }

  lemma CutAt(s: string, tag: string, at: nat) returns (before: string, after: string)
    requires tag != "" && FindFrom(s, tag, 0) == Some(at)
    ensures before == s[..at] && after == s[at + |tag|..] && s == before + tag + after
    ensures !Holds(before, tag) && |after| < |s|
  {
    before, after := s[..at], s[at + |tag|..];
    FindsFirst(s, tag, 0);
    FindsFirst(before, tag, 0);
    assert s[at..at + |tag|] == tag;
    forall i: nat | i + |tag| <= at ensures !OccursAt(before, tag, i) {
      assert before[i..i + |tag|] == s[i..i + |tag|];
      assert !OccursAt(s, tag, i);
    }
  }

  // ----- when a tag is left in the result

  /** A join of two texts at which the front of the tag ends what stands before it and the
      rest of the tag begins what stands behind it. */
  ghost predicate Joins(texts: seq<string>, tag: string, i: nat, n: nat) {
    && 0 < i < |texts| && 0 < n < |tag|
    && EndsWith(Concat(texts[..i]), tag[..n])
    && StartsWith(Concat(texts[i..]), tag[n..])
  }

  ghost predicate Straddles(texts: seq<string>, tag: string) {
    exists i, n :: Joins(texts, tag, i, n)
  }

  lemma HoldsIff(s: string, pattern: string)
    ensures Holds(s, pattern) <==> exists j: nat :: OccursAt(s, pattern, j)
  {
    FindsFirst(s, pattern, 0);
  }

  lemma {:induction false} ConcatInTwo(texts: seq<string>, i: nat)
    requires i <= |texts|
    ensures Concat(texts) == Concat(texts[..i]) + Concat(texts[i..])
  {
    if i == 0 {
      assert texts[0..] == texts;
    } else {
      ConcatInTwo(texts[1..], i - 1);
      assert texts[..i] == [texts[0]] + texts[1..][..i - 1] && texts[i..] == texts[1..][i - 1..];
      TailOf(texts[0], texts[1..][..i - 1]);
      Associates(texts[0], Concat(texts[1..][..i - 1]), Concat(texts[i..]));
    }
  }

  lemma JoinedHolds(a: string, b: string, tag: string, n: nat)
    requires n <= |tag| && EndsWith(a, tag[..n]) && StartsWith(b, tag[n..])
    ensures OccursAt(a + b, tag, |a| - n)
  {
    var s, at := a + b, |a| - n;
    assert s[at..|a|] == tag[..n] && s[|a|..at + |tag|] == tag[n..];
    assert s[at..at + |tag|] == s[at..|a|] + s[|a|..at + |tag|];
    assert tag[..n] + tag[n..] == tag;
  }

  /** Where an occurrence in two joined texts stands. */
  lemma OccurrenceInTwo(a: string, b: string, tag: string, j: nat)
    requires OccursAt(a + b, tag, j)
    ensures j + |tag| <= |a| ==> OccursAt(a, tag, j)
    ensures j >= |a| ==> OccursAt(b, tag, j - |a|)
    ensures j < |a| < j + |tag| ==> EndsWith(a, tag[..|a| - j]) && StartsWith(b, tag[|a| - j..])
  {
    if j + |tag| <= |a| {
      SliceInFront(a, b, j, j + |tag|);
    } else if j >= |a| {
      SliceBehind(a, b, j, j + |tag|);
    } else {
      SliceAcross(a, b, j, j + |tag|);
      Parts(a[j..], b[..j + |tag| - |a|]);
    }
  }

  lemma JoinsOneLater(texts: seq<string>, tag: string, i: nat, n: nat)
    requires texts != [] && Joins(texts[1..], tag, i, n)
    ensures Joins(texts, tag, i + 1, n)
  {
    var before := Concat(texts[1..][..i]);
    assert texts[..i + 1] == [texts[0]] + texts[1..][..i] && texts[i + 1..] == texts[1..][i..];
    TailOf(texts[0], texts[1..][..i]);
    assert (texts[0] + before)[|texts[0]| + |before| - n..] == before[|before| - n..];
  }

  lemma {:induction false} OccurrenceJoins(texts: seq<string>, tag: string, j: nat) returns (i: nat, n: nat)
    requires forall k | 0 <= k < |texts| :: !Holds(texts[k], tag)
    requires tag != "" && OccursAt(Concat(texts), tag, j)
    ensures Joins(texts, tag, i, n)
  {
    var first, rest := texts[0], texts[1..];
    OccurrenceInTwo(first, Concat(rest), tag, j);
    HoldsIff(first, tag);
    if j >= |first| {
      i, n := OccurrenceJoins(rest, tag, j - |first|);
      JoinsOneLater(texts, tag, i, n);
      i := i + 1;
    } else {
      i, n := 1, |first| - j;
      assert texts[..1] == [first] && texts[1..] == rest;
      OneText([first]);
    }
  }

  lemma JoinHolds(texts: seq<string>, tag: string, i: nat, n: nat)
    requires Joins(texts, tag, i, n)
    ensures Holds(Concat(texts), tag)
  {
    var a, b := Concat(texts[..i]), Concat(texts[i..]);
    ConcatInTwo(texts, i);
    JoinedHolds(a, b, tag, n);
    HoldsIff(a + b, tag);
  }

  lemma HeldJoins(texts: seq<string>, tag: string)
    requires tag != "" && Holds(Concat(texts), tag)
    requires forall k | 0 <= k < |texts| :: !Holds(texts[k], tag)
    ensures Straddles(texts, tag)
  {
    var whole := Concat(texts);
    FindsFirst(whole, tag, 0);
    var i, n := OccurrenceJoins(texts, tag, FindFrom(whole, tag, 0).value);
  }

  lemma StraddlesIff(texts: seq<string>, tag: string)
    requires tag != "" && forall k | 0 <= k < |texts| :: !Holds(texts[k], tag)
    ensures Holds(Concat(texts), tag) <==> Straddles(texts, tag)
  {
    if Holds(Concat(texts), tag) {
      HeldJoins(texts, tag);
    } else {
      forall i, n ensures !Joins(texts, tag, i, n) {
        if Joins(texts, tag, i, n) {
          JoinHolds(texts, tag, i, n);
        }
      }
    }
  }

  // ----- trimming takes no tag away

  predicate Spaceless(tag: string) {
    tag != "" && !IsSpace(tag[0]) && !IsSpace(tag[|tag| - 1])
  }

  lemma {:induction false} TrimStartKeeps(s: string, tag: string)
    requires Spaceless(tag)
    ensures Holds(TrimStart(s), tag) <==> Holds(s, tag)
  {
    if s != "" && IsSpace(s[0]) {
      TrimStartKeeps(s[1..], tag);
      HoldsIff(s, tag);
      HoldsIff(s[1..], tag);
      assert [s[0]] + s[1..] == s;
      forall j: nat | OccursAt(s, tag, j) ensures j > 0 && OccursAt(s[1..], tag, j - 1) {
        assert s[j] == tag[0];
        OccurrenceInTwo([s[0]], s[1..], tag, j);
      }
      forall j: nat | OccursAt(s[1..], tag, j) ensures OccursAt(s, tag, j + 1) {
        assert s[j + 1..j + 1 + |tag|] == s[1..][j..j + |tag|];
      }
    }
  }

  lemma NotAtTheEnd(s: string, tag: string, j: nat)
    requires Spaceless(tag) && s != "" && IsSpace(s[|s| - 1])
    ensures OccursAt(s, tag, j) <==> OccursAt(s[..|s| - 1], tag, j)
  {
    if j + |tag| == |s| {
      assert s[j..j + |tag|][|tag| - 1] == s[|s| - 1];
    } else if j + |tag| < |s| {
      assert s[..|s| - 1][j..j + |tag|] == s[j..j + |tag|];
    }
  }

  lemma {:induction false} TrimEndKeeps(s: string, tag: string)
    requires Spaceless(tag)
    ensures Holds(TrimEnd(s), tag) <==> Holds(s, tag)
  {
    if s != "" && IsSpace(s[|s| - 1]) {
      var front := s[..|s| - 1];
      TrimEndKeeps(front, tag);
      HoldsIff(s, tag);
      HoldsIff(front, tag);
      forall j: nat ensures OccursAt(s, tag, j) <==> OccursAt(front, tag, j) {
        NotAtTheEnd(s, tag, j);
      }
    }
  }

  /** An opening tag is left in the result exactly when it straddles a join of the outside
      texts: taking blocks out never leaves one that was not put together by doing so. */
  lemma TagRemainsIff(texts: seq<string>, blocks: seq<string>, unclosed: Option<string>)
    requires Clear(OPEN, CLOSE, texts, blocks, unclosed)
    ensures Holds(Trim(Outside(OPEN, CLOSE, Printed(OPEN, CLOSE, texts, blocks, unclosed))), OPEN)
            <==> Straddles(texts, OPEN)
  {
    TagsAreUnrepeated();
    BlocksVanish(OPEN, CLOSE, texts, blocks, unclosed);
    TagIsKept(Concat(texts), OPEN);
    StraddlesIff(texts, OPEN);
  }

  lemma TagIsKept(s: string, tag: string)
    requires Spaceless(tag)
    ensures Holds(Trim(s), tag) <==> Holds(s, tag)
  {
    TrimStartKeeps(s, tag);
    TrimEndKeeps(TrimStart(s), tag);
  }

  /** The same of any input, with the texts that it is printed from. */
  lemma TagRemainsInAnyIff(text: string) returns (texts: seq<string>, blocks: seq<string>, unclosed: Option<string>)
    ensures Clear(OPEN, CLOSE, texts, blocks, unclosed) && text == Printed(OPEN, CLOSE, texts, blocks, unclosed)
    ensures Holds(Trim(Outside(OPEN, CLOSE, text)), OPEN) <==> Straddles(texts, OPEN)
  {
    texts, blocks, unclosed := EveryTextIsPrinted(OPEN, CLOSE, text);
    TagRemainsIff(texts, blocks, unclosed);
  }

  /** Inputs with such a join: the halves of a tag around an empty block. */
  lemma ResultCanHoldATag(left: string, right: string)
    requires OPEN == left + right && left != "" && right != ""
    ensures Trim(Outside(OPEN, CLOSE, left + OPEN + ("" + CLOSE + right))) == OPEN
  {
    TagsAreUnrepeated();
    assert !Holds(left, OPEN) && !Holds(right, OPEN) && !Holds("", CLOSE);
    OutsideBlock(OPEN, CLOSE, left, "", right);
    TrimFixes(OPEN);
  }

  /** The tags themselves: a block goes with its tags, and what follows is cleaned in turn; an
      opening tag that is never closed takes the rest. */
  lemma BlocksAreDropped(before: string, inside: string, rest: string)
    requires !Holds(before, "<think>") && !Holds(inside, "</think>")
    ensures Outside(OPEN, CLOSE, before + "<think>" + (inside + "</think>" + rest)) == before + Outside(OPEN, CLOSE, rest)
    ensures Outside(OPEN, CLOSE, before + "<think>" + inside) == before
    ensures Outside(OPEN, CLOSE, before) == before
  {
    TagsAreUnrepeated();
    OutsideBlock(OPEN, CLOSE, before, inside, rest);
    OutsideUnclosed(OPEN, CLOSE, before, inside);
  }
}
