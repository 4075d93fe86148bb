/** Streamed chat completions, read into segments of thinking and of text. */
module ResponseFormat {
  import opened Wrappers
  import opened Text
  import opened Sequences

  datatype Kind = Thinking | Plain

  datatype Segment = Segment(kind: Kind, text: string)

  datatype Format = PlainText | ReasoningField(field: string)

  /** A delta's string-valued members; members of other types are as good as absent. */
  type Delta = map<string, string>

  /** What JSON parsing makes of a payload: the first choice's delta, if there is one. */
  type Decoder = string -> Option<Delta>

  function Member(delta: Delta, field: string, kind: Kind): seq<Segment> {
    if field in delta && delta[field] != "" then [Segment(kind, delta[field])] else []
  }

  function ClassifyDelta(format: Format, delta: Delta): seq<Segment> {
    match format
    case PlainText => Member(delta, "content", Plain)
    case ReasoningField(field) => Member(delta, field, Thinking) + Member(delta, "content", Plain)
  }

  // ----- appending to the segments read so far

  function Pushed(out: seq<Segment>, s: Segment): seq<Segment> {
    if out != [] && out[|out| - 1].kind == s.kind
    then out[|out| - 1 := Segment(s.kind, out[|out| - 1].text + s.text)]
    else out + [s]
  }

  function PushedAll(out: seq<Segment>, more: seq<Segment>): seq<Segment>
    decreases |more|
  {
    if more == [] then out else PushedAll(Pushed(out, more[0]), more[1..])
  }

  const DATA := "data:"

  function OfLine(format: Format, decode: Decoder, line: string): seq<Segment> {
    if !StartsWith(line, DATA) then []
    else
      var data := Trim(line[|DATA|..]);
      if data == "" || data == "[DONE]" then []
      else
        match decode(data)
        case None => []
        case Some(delta) => ClassifyDelta(format, delta)
  }

  /** Every classified delta of the lines, one after the other. */
  function Deltas(format: Format, decode: Decoder, lines: seq<string>): seq<Segment> {
    if lines == [] then [] else OfLine(format, decode, lines[0]) + Deltas(format, decode, lines[1..])
  }

  function Parsed(format: Format, decode: Decoder, body: string): seq<Segment> {
    PushedAll([], Deltas(format, decode, Lines(body)))
  }

  method ParseSse(format: Format, decode: Decoder, body: string) returns (out: seq<Segment>)
    ensures out == Parsed(format, decode, body)
  {
    out := [];
    var lines := Lines(body);
    for i := 0 to |lines|
      invariant PushedAll(out, Deltas(format, decode, lines[i..])) == Parsed(format, decode, body)
    {
      var segments := OfLine(format, decode, lines[i]);
      ghost var rest := Deltas(format, decode, lines[i + 1..]);
      assert lines[i..][1..] == lines[i + 1..];
      assert Deltas(format, decode, lines[i..]) == segments + rest;
      PushedAllAppend(out, segments, rest);
      out := Extend(out, segments);
    }
  }

  method Extend(before: seq<Segment>, segments: seq<Segment>) returns (out: seq<Segment>)
    ensures out == PushedAll(before, segments)
  {
    out := before;
    for i := 0 to |segments|
      invariant PushedAll(out, segments[i..]) == PushedAll(before, segments)
    {
      var s := segments[i];
      assert segments[i..][0] == s && segments[i..][1..] == segments[i + 1..];
      if out != [] && out[|out| - 1].kind == s.kind {
        out := out[|out| - 1 := Segment(s.kind, out[|out| - 1].text + s.text)];
      } else {
        out := out + [s];
      }
    }
  }

  lemma {:induction false} PushedAllAppend(out: seq<Segment>, a: seq<Segment>, b: seq<Segment>)
    ensures PushedAll(out, a + b) == PushedAll(PushedAll(out, a), b)
    decreases |a|
  {
    if a == [] {
      assert a + b == b;
    } else {
      PushedAllAppend(Pushed(out, a[0]), a[1..], b);
      HeadOfAppend(a, b);
    }
  }

  // ----- the normal form

  /** No segment is empty and no two neighbours are of one kind. */
  ghost predicate Normal(out: seq<Segment>) {
    && (forall i | 0 <= i < |out| :: out[i].text != "")
    && (forall i | 0 <= i < |out| - 1 :: out[i].kind != out[i + 1].kind)
  }

  datatype Mark = Mark(kind: Kind, c: char)

  function Marks(s: Segment): (r: seq<Mark>)
    ensures |r| == |s.text|
    ensures forall i | 0 <= i < |r| :: r[i] == Mark(s.kind, s.text[i])
  {
    seq(|s.text|, i requires 0 <= i < |s.text| => Mark(s.kind, s.text[i]))
  }

  /** What the segments say: each character with its kind, in order. */
  function Said(out: seq<Segment>): seq<Mark> {
    if out == [] then [] else Marks(out[0]) + Said(out[1..])
  }

  lemma {:induction false} SaidAppend(a: seq<Segment>, b: seq<Segment>)
    ensures Said(a + b) == Said(a) + Said(b)
  {
    if a == [] {
      assert a + b == b;
    } else {
      SaidAppend(a[1..], b);
      HeadOfAppend(a, b);
      Associates(Marks(a[0]), Said(a[1..]), Said(b));
    }
  }

  lemma SaidOne(s: Segment)
    ensures Said([s]) == Marks(s)
  {
    assert [s][1..] == [];
  }

  lemma MarksJoin(kind: Kind, a: string, b: string)
    ensures Marks(Segment(kind, a + b)) == Marks(Segment(kind, a)) + Marks(Segment(kind, b))
  {
  }

  lemma PushedSays(out: seq<Segment>, s: Segment)
    ensures Said(Pushed(out, s)) == Said(out) + Marks(s)
  {
    if out != [] && out[|out| - 1].kind == s.kind {
      LastGrowsSays(out, s);
    } else {
      SaidOneMore(out, s);
    }
  }

  lemma LastUpdated(out: seq<Segment>, x: Segment)
    requires out != []
    ensures out[|out| - 1 := x] == out[..|out| - 1] + [x]
    ensures out == out[..|out| - 1] + [out[|out| - 1]]
  {
  }

  lemma SaidOneMore(front: seq<Segment>, x: Segment)
    ensures Said(front + [x]) == Said(front) + Marks(x)
  {
    SaidAppend(front, [x]);
    SaidOne(x);
  }

  lemma LastGrowsSays(out: seq<Segment>, s: Segment)
    requires out != [] && out[|out| - 1].kind == s.kind
    ensures Said(Pushed(out, s)) == Said(out) + Marks(s)
  {
    var front, last := out[..|out| - 1], out[|out| - 1];
    var merged := Segment(s.kind, last.text + s.text);
    LastUpdated(out, merged);
    SaidOneMore(front, last);
    SaidOneMore(front, merged);
    MarksJoin(s.kind, last.text, s.text);
    Associates(Said(front), Marks(last), Marks(s));
  }

  ghost predicate NoneEmpty(segments: seq<Segment>) {
    forall i | 0 <= i < |segments| :: segments[i].text != ""
  }

  lemma {:induction false} PushingSays(out: seq<Segment>, more: seq<Segment>)
    ensures Said(PushedAll(out, more)) == Said(out) + Said(more)
    decreases |more|
  {
    if more != [] {
      PushedSays(out, more[0]);
      PushingSays(Pushed(out, more[0]), more[1..]);
    }
  }

  lemma {:induction false} PushingStaysNormal(out: seq<Segment>, more: seq<Segment>)
    requires Normal(out) && NoneEmpty(more)
    ensures Normal(PushedAll(out, more))
    decreases |more|
  {
    if more != [] {
      assert Normal(Pushed(out, more[0]));
      PushingStaysNormal(Pushed(out, more[0]), more[1..]);
    }
  }

  lemma {:induction false} DeltasAreNotEmpty(format: Format, decode: Decoder, lines: seq<string>)
    ensures NoneEmpty(Deltas(format, decode, lines))
  {
    if lines != [] {
      DeltasAreNotEmpty(format, decode, lines[1..]);
    }
  }

  /** Two normal forms that say the same are the same. */
  lemma {:induction false} NormalFormIsUnique(a: seq<Segment>, b: seq<Segment>)
    requires Normal(a) && Normal(b) && Said(a) == Said(b)
    ensures a == b
    decreases |a|
  {
    if a != [] && b != [] {
      NotShorter(a, b);
      NotShorter(b, a);
      HeadsAgree(a, b);
      NormalFormIsUnique(a[1..], b[1..]);
      assert a == [a[0]] + a[1..] && b == [b[0]] + b[1..];
    }
  }

  /** The first run ends where its text does: the next character is of the other kind. */
  lemma RunEnds(a: seq<Segment>)
    requires Normal(a) && a != []
    ensures |a[0].text| <= |Said(a)|
    ensures forall i | 0 <= i < |a[0].text| :: Said(a)[i].kind == a[0].kind
    ensures |Said(a)| > |a[0].text| ==> Said(a)[|a[0].text|].kind != a[0].kind
  {
    assert forall i | 0 <= i < |a[0].text| :: Said(a)[i] == Marks(a[0])[i];
    if |a| > 1 {
      assert a[1..][0] == a[1];
      assert Said(a[1..])[0] == Marks(a[1])[0];
      assert Said(a)[|a[0].text|] == Said(a[1..])[0];
    }
  }

  lemma NotShorter(a: seq<Segment>, b: seq<Segment>)
    requires Normal(a) && Normal(b) && a != [] && b != [] && Said(a) == Said(b)
    ensures |b[0].text| <= |a[0].text|
  {
    RunEnds(a);
    RunEnds(b);
    assert Said(a)[0].kind == a[0].kind && Said(b)[0].kind == b[0].kind;
  }

  lemma HeadsAgree(a: seq<Segment>, b: seq<Segment>)
    requires a != [] && b != [] && Said(a) == Said(b)
    requires |a[0].text| == |b[0].text| > 0
    ensures a[0] == b[0] && Said(a[1..]) == Said(b[1..])
  {
    var n := |a[0].text|;
    assert Said(a)[..n] == Marks(a[0]) && Said(b)[..n] == Marks(b[0]);
    assert Said(a)[n..] == Said(a[1..]) && Said(b)[n..] == Said(b[1..]);
    assert Marks(a[0])[0].kind == a[0].kind && Marks(b[0])[0].kind == b[0].kind;
    forall i | 0 <= i < n ensures a[0].text[i] == b[0].text[i] {
      assert Marks(a[0])[i] == Marks(b[0])[i];
    }
  }

  /** Parsing yields the one normal form that says what the deltas said, nothing lost, added
      or moved between kinds. */
  lemma ParsedIsTheNormalForm(format: Format, decode: Decoder, body: string, out: seq<Segment>)
    ensures Normal(out) && Said(out) == Said(Deltas(format, decode, Lines(body)))
            <==> out == Parsed(format, decode, body)
  {
    var deltas := Deltas(format, decode, Lines(body));
    DeltasAreNotEmpty(format, decode, Lines(body));
    PushingSays([], deltas);
    PushingStaysNormal([], deltas);
    if Normal(out) && Said(out) == Said(deltas) {
      NormalFormIsUnique(out, Parsed(format, decode, body));
    }
  }

  // ----- parsing in pieces

  /** Two parses put together: the boundary segments merge when they are of one kind. */
  function Merge(a: seq<Segment>, b: seq<Segment>): seq<Segment> {
    PushedAll(a, b)
  }

  lemma MergeSays(a: seq<Segment>, b: seq<Segment>)
    requires Normal(a) && Normal(b)
    ensures Normal(Merge(a, b)) && Said(Merge(a, b)) == Said(a) + Said(b)
  {
    PushingSays(a, b);
    PushingStaysNormal(a, b);
  }

  lemma MergeIsAssociative(a: seq<Segment>, b: seq<Segment>, c: seq<Segment>)
    requires Normal(a) && Normal(b) && Normal(c)
    ensures Merge(Merge(a, b), c) == Merge(a, Merge(b, c))
    ensures Merge([], a) == a == Merge(a, [])
  {
    MergeSays(a, b);
    MergeSays(Merge(a, b), c);
    MergeSays(b, c);
    MergeSays(a, Merge(b, c));
    Associates(Said(a), Said(b), Said(c));
    NormalFormIsUnique(Merge(Merge(a, b), c), Merge(a, Merge(b, c)));
    MergeSays([], a);
    NormalFormIsUnique(Merge([], a), a);
  }

  lemma {:induction false} DeltasAppend(format: Format, decode: Decoder, a: seq<string>, b: seq<string>)
    ensures Deltas(format, decode, a + b) == Deltas(format, decode, a) + Deltas(format, decode, b)
  {
    if a == [] {
      assert a + b == b;
    } else {
      DeltasAppend(format, decode, a[1..], b);
      HeadOfAppend(a, b);
      Associates(OfLine(format, decode, a[0]), Deltas(format, decode, a[1..]), Deltas(format, decode, b));
    }
  }

  /** A body can be cut after any line and parsed in two pieces. */
  lemma ParsesInPieces(format: Format, decode: Decoder, a: string, b: string)
    requires EndsLine(a)
    ensures Parsed(format, decode, a + b) == Merge(Parsed(format, decode, a), Parsed(format, decode, b))
  {
    var da, db := Deltas(format, decode, Lines(a)), Deltas(format, decode, Lines(b));
    LinesAppend(a, b);
    DeltasAppend(format, decode, Lines(a), Lines(b));
    SaidAppend(da, db);
    ParsedIsTheNormalForm(format, decode, a, Parsed(format, decode, a));
    ParsedIsTheNormalForm(format, decode, b, Parsed(format, decode, b));
    MergeSays(Parsed(format, decode, a), Parsed(format, decode, b));
    ParsedIsTheNormalForm(format, decode, a + b, Merge(Parsed(format, decode, a), Parsed(format, decode, b)));
  }

  // ----- each kind by itself

  function TextOf(kind: Kind, marks: seq<Mark>): string {
    if marks == [] then "" else (if marks[0].kind == kind then [marks[0].c] else "") + TextOf(kind, marks[1..])
  }

  function KindText(kind: Kind, out: seq<Segment>): string {
    if out == [] then "" else (if out[0].kind == kind then out[0].text else "") + KindText(kind, out[1..])
  }

  lemma {:induction false} TextOfAppend(kind: Kind, a: seq<Mark>, b: seq<Mark>)
    ensures TextOf(kind, a + b) == TextOf(kind, a) + TextOf(kind, b)
  {
    if a == [] {
      assert a + b == b;
    } else {
      TextOfAppend(kind, a[1..], b);
      HeadOfAppend(a, b);
      Associates(if a[0].kind == kind then [a[0].c] else "", TextOf(kind, a[1..]), TextOf(kind, b));
    }
  }

  lemma {:induction false} TextOfMarks(kind: Kind, s: Segment)
    ensures TextOf(kind, Marks(s)) == if s.kind == kind then s.text else ""
    decreases |s.text|
  {
    if s.text != "" {
      TextOfMarks(kind, Segment(s.kind, s.text[1..]));
      assert Marks(s)[1..] == Marks(Segment(s.kind, s.text[1..]));
    } else {
      assert Marks(s) == [];
    }
  }

  lemma {:induction false} KindTextIsSaid(kind: Kind, out: seq<Segment>)
    ensures KindText(kind, out) == TextOf(kind, Said(out))
  {
    if out != [] {
      KindTextIsSaid(kind, out[1..]);
      TextOfMarks(kind, out[0]);
      TextOfAppend(kind, Marks(out[0]), Said(out[1..]));
    }
  }

  /** The text of each kind is that of its deltas joined. */
  lemma EachKindIsConserved(format: Format, decode: Decoder, body: string, kind: Kind)
    ensures KindText(kind, Parsed(format, decode, body)) == KindText(kind, Deltas(format, decode, Lines(body)))
  {
    ParsedIsTheNormalForm(format, decode, body, Parsed(format, decode, body));
    KindTextIsSaid(kind, Parsed(format, decode, body));
    KindTextIsSaid(kind, Deltas(format, decode, Lines(body)));
  }

  // ----- what a line comes to

  /** A delta's thinking comes before its text, each if it is there and not empty; in the plain
      format there is only text. */
  lemma DeltaReads(field: string, delta: Delta)
    ensures var thinking := if field in delta && delta[field] != "" then [Segment(Thinking, delta[field])] else [];
            var text := if "content" in delta && delta["content"] != "" then [Segment(Kind.Plain, delta["content"])] else [];
            && ClassifyDelta(ReasoningField(field), delta) == thinking + text
            && ClassifyDelta(PlainText, delta) == text
  {
  }

  /** Only lines that begin with `data:` count, and of those neither empty ones, nor the end mark,
      nor what does not decode. */
  lemma LineReads(format: Format, decode: Decoder, line: string, payload: string)
    ensures !StartsWith(line, "data:") ==> OfLine(format, decode, line) == []
    ensures var data := Trim(payload);
            OfLine(format, decode, "data:" + payload) ==
            if data == "" || data == "[DONE]" || decode(data).None? then [] else ClassifyDelta(format, decode(data).value)
  {
    assert ("data:" + payload)[..5] == "data:" && ("data:" + payload)[5..] == payload;
  }
}
