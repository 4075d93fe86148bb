/** Keeping the worktree directory out of git's view: one line in `info/exclude`. */
module GitExclude {
  import opened Wrappers
  import opened Text

  const ENTRY := "worktrees/"

  predicate Excludes(line: string, entry: string) {
    TrimSlashes(Trim(line)) == TrimSlashes(entry)
  }

  predicate AnyExcludes(lines: seq<string>, entry: string) {
    lines != [] && (Excludes(lines[0], entry) || AnyExcludes(lines[1..], entry))
  }

  /** The file after `ensure_excluded`. */
  function Excluded(text: string, entry: string): string {
    if AnyExcludes(Lines(text), entry) then text
    else (if EndsLine(text) then text else text + "\n") + entry + "\n"
  }

  method EnsureExcluded(existing: string) returns (text: string)
    ensures text == Excluded(existing, ENTRY)
  {
    var lines := Lines(existing);
    for i := 0 to |lines|
      invariant AnyExcludes(lines[i..], ENTRY) == AnyExcludes(lines, ENTRY)
    {
      assert lines[i..][0] == lines[i] && lines[i..][1..] == lines[i + 1..];
      if Excludes(lines[i], ENTRY) {
        return existing;
      }
    }
    text := existing;
    if text != "" && text[|text| - 1] != '\n' {
      text := text + "\n";
    }
    text := text + ENTRY;
    text := text + "\n";
  }

  // ----- what it keeps

  lemma LineAppended(text: string, line: string)
    requires EndsLine(text) && '\n' !in line
    ensures Lines(text + line + "\n") == Lines(text) + [line]
  {
    LinesAppend(text, line + "\n");
    NewlineFound(line, "");
    assert text + line + "\n" == text + (line + "\n") && line + "\n" == line + "\n" + "";
  }

  lemma {:induction false} LineEnded(text: string)
    requires !EndsLine(text)
    ensures Lines(text + "\n") == Lines(text)
    decreases |text|
  {
    if FindFrom(text, "\n", 0).Some? {
      var first, rest := FirstLine(text, "\n");
      LineEnded(rest);
    } else {
      FindsFirst(text, "\n", 0);
      forall i | 0 <= i < |text| ensures text[i] != '\n' {
        assert !OccursAt(text, "\n", i);
        assert text[i..i + 1] == [text[i]];
      }
      NewlineFound(text, "");
      assert text + "\n" + "" == text + "\n";
    }
  }

  /** Every line that was there stays, in its place; at most the entry is added, as a line of
      its own at the end. */
  lemma LinesAreKept(text: string, entry: string)
    requires '\n' !in entry
    ensures Lines(Excluded(text, entry)) == Lines(text) + if AnyExcludes(Lines(text), entry) then [] else [entry]
  {
    if !AnyExcludes(Lines(text), entry) {
      if EndsLine(text) {
        LineAppended(text, entry);
      } else {
        LineEnded(text);
        LineAppended(text + "\n", entry);
      }
    }
  }

  lemma {:induction false} AppendedExcludes(lines: seq<string>, entry: string)
    requires Trim(entry) == entry
    ensures AnyExcludes(lines + [entry], entry)
  {
    if lines != [] {
      AppendedExcludes(lines[1..], entry);
      assert (lines + [entry])[1..] == lines[1..] + [entry];
    }
  }

  /** The directory is excluded afterwards, and a second call changes nothing. */
  lemma ExcludingIsIdempotent(text: string)
    ensures AnyExcludes(Lines(Excluded(text, ENTRY)), ENTRY)
    ensures Excluded(Excluded(text, ENTRY), ENTRY) == Excluded(text, ENTRY)
  {
    EntryIsALine();
    LinesAreKept(text, ENTRY);
    AppendedExcludes(Lines(text), ENTRY);
  }

  lemma EntryIsALine()
    ensures '\n' !in ENTRY && Trim(ENTRY) == ENTRY
  {
    assert forall i | 0 <= i < |ENTRY| :: ENTRY[i] != '\n';
    TrimFixes(ENTRY);
  }

  /** When the file is left alone: some line of it, without space around it and slashes behind it,
      is the directory's name. Else the entry is added. */
  lemma {:induction false} LeftAloneIff(text: string)
    ensures Excluded(text, ENTRY) == text <==> exists line :: line in Lines(text) && TrimSlashes(Trim(line)) == "worktrees"
    ensures Excluded(text, ENTRY) != text ==> Lines(Excluded(text, ENTRY)) == Lines(text) + ["worktrees/"]
  {
    assert ENTRY == "worktrees" + "/" && ENTRY[..9] == "worktrees";
    assert TrimSlashes(ENTRY) == "worktrees";
    AnyIff(Lines(text), ENTRY);
    EntryIsALine();
    LinesAreKept(text, ENTRY);
  }

  lemma {:induction false} AnyIff(lines: seq<string>, entry: string)
    ensures AnyExcludes(lines, entry) <==> exists line :: line in lines && TrimSlashes(Trim(line)) == TrimSlashes(entry)
  {
    if lines != [] {
      AnyIff(lines[1..], entry);
      assert lines == [lines[0]] + lines[1..];
      if line :| line in lines && TrimSlashes(Trim(line)) == TrimSlashes(entry) {
        assert line == lines[0] || line in lines[1..];
      }
    }
  }
}
