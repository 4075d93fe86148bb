/** Which models a client can get selected, and so which config files leave prompts hanging. */
module StuckPrompts {
  import opened Wrappers
  import opened Text
  import P = Providers
  import opened Selection
  import opened AcpServer

  /** What makes a provider's model selectable: it is the default, its displayed id selects
      it, or the provider's prefix in front of the whole id does. Each is a matter of spaces
      at the ends and of what the list holds before it. */
  ghost predicate Selectable(p: P.Provider, m: string) {
    && m in p.models
    && (|| p.models[0] == m
        || ReadsAs(p, Display(p.name, m), m, Alias(p.name, m))
        || ReadsAs(p, Prefix(p.name) + m, m, Prefix(p.name) + m))
  }

  ghost predicate ReadsAs(p: P.Provider, text: string, m: string, other: string) {
    Trim(text) == text && ListedBefore(p.models, m, other)
  }

  // ----- texts that select

  lemma PrefixedResolves(all: seq<P.Provider>, p: P.Provider, m: string)
    requires Clean(all) && p in all && Trim(Prefix(p.name) + m) == Prefix(p.name) + m
    ensures ResolveSelection(all, Prefix(p.name) + m) == Ok(Selected(p.name, m))
            <==> ListedBefore(p.models, m, Prefix(p.name) + m)
  {
    var text := Prefix(p.name) + m;
    PrefixShape(p.name, m);
    NoSlashInNames(all, text, |p.name|);
    ByPrefixIs(all, p, text);
    FirstOfIsFirst(p.models, m, text);
  }

  lemma PrefixShape(name: string, m: string)
    ensures var text := Prefix(name) + m;
            StartsWith(text, Prefix(name)) && text[|name|] == '/' && text[|name| + 1..] == m && text != m
  {
    var text := Prefix(name) + m;
    assert text[|Prefix(name)|..] == m;
    assert |text| > |m|;
  }

  lemma OneOfAName(all: seq<P.Provider>, p: P.Provider, q: P.Provider)
    requires Clean(all) && p in all && q in all && p.name == q.name
    ensures p == q
  {
    var i :| 0 <= i < |all| && all[i] == p;
    var j :| 0 <= j < |all| && all[j] == q;
    assert P.NamesOf(all)[i] == P.NamesOf(all)[j];
  }

  lemma SelectableIsSelected(all: seq<P.Provider>, p: P.Provider, m: string) returns (text: string)
    requires Clean(all) && p in all && Selectable(p, m)
    ensures || ResolveSelection(all, text) == Ok(Selected(p.name, m))
            || (P.Find(all, p.name) == Some(p) && p.models != [] && p.models[0] == m)
  {
    text := Display(p.name, m);
    OneOfAName(all, p, P.Find(all, p.name).value);
    if ReadsAs(p, text, m, Alias(p.name, m)) {
      DisplayResolvesIff(all, p, m);
    } else if ReadsAs(p, Prefix(p.name) + m, m, Prefix(p.name) + m) {
      text := Prefix(p.name) + m;
      PrefixedResolves(all, p, m);
    }
  }

  /** The displayed id alone would not do: it can select another model, and the prefix in
      front of the whole id still this one. */
  lemma DisplayIsNotEnough(p: P.Provider, first: string, rest: string)
    requires p.name != "" && !IsSpace(p.name[0]) && rest != "" && !IsSpace(rest[|rest| - 1])
    requires p.models == [first, rest, Prefix(p.name) + rest] && first != Prefix(p.name) + rest
    requires first != Prefix(p.name) + (Prefix(p.name) + rest)
    ensures var m := Prefix(p.name) + rest;
            Selectable(p, m) && p.models[0] != m && !ReadsAs(p, Display(p.name, m), m, Alias(p.name, m))
  {
    var m := Prefix(p.name) + rest;
    PrefixShape(p.name, rest);
    PrefixShape(p.name, m);
    assert Alias(p.name, m) == rest && p.models[2] == m && p.models[1] == rest;
    assert p.models[..2] == [first, rest];
    PrefixedIsTrimmed(p.name, m);
    assert |rest| < |Prefix(p.name) + m|;
    forall i | 0 <= i < |p.models| && p.models[i] == m ensures rest in p.models[..i] {
      assert i == 2 && p.models[..2][1] == rest;
    }
  }

  // ----- and nothing else is selected

  /** The name in front keeps a trimmed text trimmed. */
  lemma PrefixedIsTrimmed(name: string, t: string)
    requires name != "" && !IsSpace(name[0]) && t != "" && !IsSpace(t[|t| - 1])
    ensures Trim(Prefix(name) + t) == Prefix(name) + t
  {
    var text := Prefix(name) + t;
    assert text[0] == name[0] && text[|text| - 1] == t[|t| - 1];
    TrimFixes(text);
  }

  lemma {:induction false} FirstNamedIsFirstOf(p: P.Provider, models: seq<string>, t: string)
    ensures FirstNamed(p, models, t) == FirstOf(models, t, Prefix(p.name) + t)
  {
    if models != [] {
      SameNames(p, models[0], t);
      FirstNamedIsFirstOf(p, models[1..], t);
    }
  }

  lemma SameNames(p: P.Provider, m: string, t: string)
    ensures Names(p, m, t) <==> m == t || m == Prefix(p.name) + t
  {
    PrefixShape(p.name, t);
    if StartsWith(m, Prefix(p.name)) && m[|p.name| + 1..] == t {
      assert m == m[..|p.name| + 1] + m[|p.name| + 1..];
    }
  }

  lemma {:induction false} NamedFrom(all: seq<P.Provider>, t: string) returns (p: P.Provider)
    requires ByModel(all, t).Some?
    ensures p in all && FirstNamed(p, p.models, t).Some?
    ensures ByModel(all, t) == Some(Selected(p.name, FirstNamed(p, p.models, t).value))
  {
    if FirstNamed(all[0], all[0].models, t).Some? {
      p := all[0];
    } else {
      p := NamedFrom(all[1..], t);
    }
  }

  /** Found under a bare name, or under the same name with the prefix. */
  lemma FoundIsSelectable(p: P.Provider, rest: string, m: string)
    requires FirstOf(p.models, rest, Prefix(p.name) + rest) == Some(m)
    requires Trim(Prefix(p.name) + rest) == Prefix(p.name) + rest
    ensures Selectable(p, m)
  {
    var full := Prefix(p.name) + rest;
    PrefixShape(p.name, rest);
    FirstOfIsFirst(p.models, rest, full);
    if m == full {
      FirstOfIsFirst(p.models, full, rest);
      assert Display(p.name, m) == full && Alias(p.name, m) == rest;
    }
  }

  lemma SelectedIsSelectable(all: seq<P.Provider>, p: P.Provider, text: string, m: string)
    requires Clean(all) && p in all && p.name != "" && !IsSpace(p.name[0])
    requires ResolveSelection(all, text) == Ok(Selected(p.name, m))
    ensures Selectable(p, m)
  {
    var t := Trim(text);
    TrimmedEnds(text);
    if P.Find(all, t).Some? {
      OneOfAName(all, p, P.Find(all, t).value);
    } else if ByPrefix(all, t).Some? {
      PrefixedIsSelectable(all, p, t, m);
    } else {
      BareIsSelectable(all, p, t, m);
    }
  }

  lemma PrefixedIsSelectable(all: seq<P.Provider>, p: P.Provider, t: string, m: string)
    requires Clean(all) && p in all && Trim(t) == t
    requires ByPrefix(all, t) == Some(Ok(Selected(p.name, m)))
    ensures Selectable(p, m)
  {
    var q := PrefixedFrom(all, t);
    OneOfAName(all, p, q);
    var rest := t[|p.name| + 1..];
    assert t == Prefix(p.name) + rest;
    FoundIsSelectable(p, rest, m);
  }

  lemma BareIsSelectable(all: seq<P.Provider>, p: P.Provider, t: string, m: string)
    requires Clean(all) && p in all && p.name != "" && !IsSpace(p.name[0])
    requires t != "" && !IsSpace(t[|t| - 1]) && ByModel(all, t) == Some(Selected(p.name, m))
    ensures Selectable(p, m)
  {
    var q := NamedFrom(all, t);
    OneOfAName(all, p, q);
    FirstNamedIsFirstOf(p, p.models, t);
    PrefixedIsTrimmed(p.name, t);
    FoundIsSelectable(p, t, m);
  }

  // ----- the config files that leave no prompt hanging

  /** Of the models listed under `combos`, every one that can be selected is a combo. */
  ghost predicate SelectableAreCombos(w: World) {
    forall p, m | p in w.all && p.name == P.COMBOS && Selectable(p, m) ::
      P.ComboNamed(w.builtins, w.config, m).Some?
  }

  lemma RunsIff(w: World, s: Selected)
    ensures Runs(w, s) <==> (s.provider == P.COMBOS ==> P.ComboNamed(w.builtins, w.config, s.model).Some?)
  {
  }

  lemma CombosIsAName()
    ensures P.COMBOS != "" && !IsSpace(P.COMBOS[0])
  {
  }

  lemma SelectionRuns(w: World, s: Selected, text: string)
    requires Clean(w.all) && SelectableAreCombos(w) && ResolveSelection(w.all, text) == Ok(s)
    ensures Runs(w, s)
  {
    RunsIff(w, s);
    if s.provider == P.COMBOS {
      ResolvedIsOffered(w.all, text);
      var p :| p in w.all && p.name == s.provider && s.model in p.models;
      CombosIsAName();
      SelectedIsSelectable(w.all, p, text, s.model);
    }
  }

  lemma DefaultRuns(w: World, name: string)
    requires SelectableAreCombos(w) && DefaultModel(w.all, name).Ok?
    ensures Runs(w, Selected(name, DefaultModel(w.all, name).value))
  {
    var p := P.Find(w.all, name).value;
    RunsIff(w, Selected(name, p.models[0]));
    assert Selectable(p, p.models[0]);
  }

  lemma SelectableRunsIff(w: World)
    requires Clean(w.all)
    ensures SelectableRuns(w) <==> SelectableAreCombos(w)
  {
    if SelectableAreCombos(w) {
      forall text | ResolveSelection(w.all, text).Ok? ensures Runs(w, ResolveSelection(w.all, text).value) {
        SelectionRuns(w, ResolveSelection(w.all, text).value, text);
      }
      forall name | DefaultModel(w.all, name).Ok? ensures Runs(w, Selected(name, DefaultModel(w.all, name).value)) {
        DefaultRuns(w, name);
      }
    }
    if SelectableRuns(w) {
      forall p, m | p in w.all && p.name == P.COMBOS && Selectable(p, m)
        ensures P.ComboNamed(w.builtins, w.config, m).Some?
      {
        var text := SelectableIsSelected(w.all, p, m);
        RunsIff(w, Selected(P.COMBOS, m));
        if ResolveSelection(w.all, text) != Ok(Selected(p.name, m)) {
          assert DefaultModel(w.all, P.COMBOS) == Ok(m);
        }
      }
    }
  }

  /** Over all runs of a server that came up with provider names without slashes: no prompt
      ever hangs exactly when every model listed under `combos` is a combo, or is not the
      first listed and selected neither by its displayed id nor with the prefix in front. */
  lemma NoPromptHangsIff(w: World)
    requires Up(w) && forall p | p in w.all :: '/' !in p.name
    ensures (forall s | Reachable(w, s) :: NobodyStuck(s)) <==> SelectableAreCombos(w)
  {
    P.ListedOnce(w.builtins, w.config, w.comboNames, w.all);
    SelectableRunsIff(w);
    NobodyIsEverStuckIff(w);
  }
}
