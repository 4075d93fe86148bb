/** What a user-facing model reference selects, and what a selection runs on. */
module Selection {
  import opened Wrappers
  import opened Text
  import opened Providers
  import opened Sequences

  datatype Selected = Selected(provider: string, model: string)

  datatype Failure =
    | EmptyReference
    | UnknownProvider(name: string)
    | NoModels(provider: string)
    | UnknownModel(provider: string, model: string)
    | UnknownReference(text: string)
    | UnknownCombo(name: string)

  function Prefix(name: string): string {
    name + "/"
  }

  /** `display_model_id`: the prefix is added unless the id carries it already. */
  function Display(provider: string, model: string): string {
    if StartsWith(model, Prefix(provider)) then model else Prefix(provider) + model
  }

  function DefaultModel(all: seq<Provider>, name: string): Result<string, Failure> {
    match Find(all, name)
    case None => Err(UnknownProvider(name))
    case Some(p) => if p.models == [] then Err(NoModels(name)) else Ok(p.models[0])
  }

  // ----- resolve_selection

  function FirstOf(models: seq<string>, rest: string, text: string): (r: Option<string>)
    ensures r.Some? ==> r.value in models && (r.value == rest || r.value == text)
  {
    if models == [] then None
    else if models[0] == rest || models[0] == text then Some(models[0])
    else FirstOf(models[1..], rest, text)
  }

  function Pick(p: Provider, text: string): Result<Selected, Failure>
    requires StartsWith(text, Prefix(p.name))
  {
    var rest := text[|p.name| + 1..];
    match FirstOf(p.models, rest, text)
    case Some(m) => Ok(Selected(p.name, m))
    case None => Err(UnknownModel(p.name, rest))
  }

  function ByPrefix(all: seq<Provider>, text: string): Option<Result<Selected, Failure>> {
    if all == [] then None
    else if StartsWith(text, Prefix(all[0].name)) then Some(Pick(all[0], text))
    else ByPrefix(all[1..], text)
  }

  predicate Names(p: Provider, model: string, text: string) {
    model == text || (StartsWith(model, Prefix(p.name)) && model[|p.name| + 1..] == text)
  }

  function FirstNamed(p: Provider, models: seq<string>, text: string): (r: Option<string>)
    ensures r.Some? ==> r.value in models && Names(p, r.value, text)
  {
    if models == [] then None
    else if Names(p, models[0], text) then Some(models[0])
    else FirstNamed(p, models[1..], text)
  }

  function ByModel(all: seq<Provider>, text: string): (r: Option<Selected>)
    ensures r.Some? ==> exists p :: p in all && p.name == r.value.provider
                          && r.value.model in p.models && Names(p, r.value.model, text)
  {
    if all == [] then None
    else
      match FirstNamed(all[0], all[0].models, text)
      case Some(m) => Some(Selected(all[0].name, m))
      case None => ByModel(all[1..], text)
  }

  /** Exact provider name, then provider prefix, then bare model name. */
  function ResolveSelection(all: seq<Provider>, text: string): Result<Selected, Failure> {
    var t := Trim(text);
    if t == "" then Err(EmptyReference)
    else
      match Find(all, t)
      case Some(p) => if p.models == [] then Err(NoModels(t)) else Ok(Selected(p.name, p.models[0]))
      case None =>
        match ByPrefix(all, t)
        case Some(r) => r
        case None =>
          match ByModel(all, t)
          case Some(s) => Ok(s)
          case None => Err(UnknownReference(t))
  }

  method Resolve(all: seq<Provider>, text: string) returns (r: Result<Selected, Failure>)
    ensures r == ResolveSelection(all, text)
  {
    var t := Trim(text);
    if t == "" {
      return Err(EmptyReference);
    }
    var exact := Find(all, t);
    if exact.Some? {
      return if exact.value.models == [] then Err(NoModels(t)) else Ok(Selected(exact.value.name, exact.value.models[0]));
    }
    for i := 0 to |all|
      invariant ByPrefix(all[i..], t) == ByPrefix(all, t)
    {
      var p := all[i];
      assert all[i..][0] == p && all[i..][1..] == all[i + 1..];
      if StartsWith(t, Prefix(p.name)) {
        var rest := t[|p.name| + 1..];
        for j := 0 to |p.models|
          invariant FirstOf(p.models[j..], rest, t) == FirstOf(p.models, rest, t)
        {
          assert p.models[j..][0] == p.models[j] && p.models[j..][1..] == p.models[j + 1..];
          if p.models[j] == rest || p.models[j] == t {
            return Ok(Selected(p.name, p.models[j]));
          }
        }
        return Err(UnknownModel(p.name, rest));
      }
    }
    for i := 0 to |all|
      invariant ByModel(all[i..], t) == ByModel(all, t)
    {
      var p := all[i];
      assert all[i..][0] == p && all[i..][1..] == all[i + 1..];
      for j := 0 to |p.models|
        invariant FirstNamed(p, p.models[j..], t) == FirstNamed(p, p.models, t)
      {
        assert p.models[j..][0] == p.models[j] && p.models[j..][1..] == p.models[j + 1..];
        if Names(p, p.models[j], t) {
          return Ok(Selected(p.name, p.models[j]));
        }
      }
    }
    r := Err(UnknownReference(t));
  }

  // ----- whatever resolves is listed

  ghost predicate Offers(all: seq<Provider>, s: Selected) {
    exists p :: p in all && p.name == s.provider && s.model in p.models
  }

  lemma {:induction false} PrefixedIsOffered(all: seq<Provider>, text: string)
    ensures var r := ByPrefix(all, text);
            r.Some? && r.value.Ok? ==> Offers(all, r.value.value)
  {
    if all != [] && !StartsWith(text, Prefix(all[0].name)) {
      PrefixedIsOffered(all[1..], text);
    }
  }

  lemma ResolvedIsOffered(all: seq<Provider>, text: string)
    ensures ResolveSelection(all, text).Ok? ==> Offers(all, ResolveSelection(all, text).value)
  {
    PrefixedIsOffered(all, Trim(text));
  }

  lemma DefaultIsOffered(all: seq<Provider>, name: string)
    ensures DefaultModel(all, name).Ok? ==> Offers(all, Selected(name, DefaultModel(all, name).value))
  {
  }

  // ----- displayed ids resolve to what they display

  /** Names are distinct and hold no slash. */
  ghost predicate Clean(all: seq<Provider>) {
    NoRepeats(NamesOf(all)) && forall p | p in all :: '/' !in p.name
  }

  /** The other id a provider may list under the same displayed id. */
  function Alias(provider: string, model: string): string {
    if StartsWith(model, Prefix(provider)) then model[|provider| + 1..] else Prefix(provider) + model
  }

  ghost predicate ListedBefore(models: seq<string>, model: string, other: string) {
    exists i | 0 <= i < |models| :: models[i] == model && other !in models[..i]
  }

  lemma {:induction false} FirstOfIsFirst(models: seq<string>, model: string, other: string)
    requires model != other
    ensures FirstOf(models, model, other) == FirstOf(models, other, model)
    ensures FirstOf(models, model, other) == Some(model) <==> ListedBefore(models, model, other)
  {
    if models == [] {
    } else if models[0] == model {
      assert models[..0] == [];
    } else if models[0] == other {
      forall i | 0 <= i < |models| && models[i] == model ensures other in models[..i] {
        assert models[..i][0] == other;
      }
    } else {
      FirstOfIsFirst(models[1..], model, other);
      if i :| 0 <= i < |models| && models[i] == model && other !in models[..i] {
        assert models[1..][i - 1] == model && models[1..][..i - 1] == models[1..i];
        assert forall k | 0 <= k < i - 1 :: models[1..i][k] == models[..i][k + 1];
      }
      if i :| 0 <= i < |models[1..]| && models[1..][i] == model && other !in models[1..][..i] {
        assert models[..i + 1] == [models[0]] + models[1..][..i];
        assert models[i + 1] == model;
      }
    }
  }

  lemma FirstSlash(text: string, p: string)
    requires '/' !in p && StartsWith(text, Prefix(p))
    ensures text[..|p|] == p && text[|p|] == '/'
    ensures forall k | 0 <= k < |p| :: text[k] != '/'
  {
    assert text[|p|] == Prefix(p)[|p|];
    assert text[..|p|] == Prefix(p)[..|p|] == p;
    assert forall k | 0 <= k < |p| :: text[k] == p[k];
  }

  lemma SamePrefix(text: string, p: string, q: string)
    requires '/' !in p && '/' !in q
    requires StartsWith(text, Prefix(p)) && StartsWith(text, Prefix(q))
    ensures p == q
  {
    FirstSlash(text, p);
    FirstSlash(text, q);
  }

  lemma {:induction false} ByPrefixIs(all: seq<Provider>, p: Provider, text: string)
    requires Clean(all) && p in all && StartsWith(text, Prefix(p.name))
    ensures ByPrefix(all, text) == Some(Pick(p, text))
  {
    var names := NamesOf(all);
    if StartsWith(text, Prefix(all[0].name)) {
      SamePrefix(text, p.name, all[0].name);
      var i :| 0 <= i < |all| && all[i] == p;
      assert names[i] == names[0];
    } else {
      assert NamesOf(all[1..]) == names[1..];
      assert all == [all[0]] + all[1..];
      ByPrefixIs(all[1..], p, text);
    }
  }

  lemma TrimEndAt(s: string, i: nat)
    requires i <= |s|
    ensures var j := i + |TrimEnd(s[i..])|;
            && j <= |s| && TrimEnd(s[i..]) == s[i..j]
            && (forall k | j <= k < |s| :: IsSpace(s[k]))
            && (i < j ==> !IsSpace(s[j - 1]))
  {
    var t := s[i..];
    TrimEndCuts(t);
    var n := |TrimEnd(t)|;
    assert t[..n] == s[i..i + n];
    forall k | i + n <= k < |s| ensures IsSpace(s[k]) {
      assert IsSpace(t[k - i]);
    }
    if n > 0 {
      assert t[n - 1] == s[i + n - 1];
    }
  }

  lemma TrimCuts(s: string, k: nat) returns (i: nat, j: nat)
    requires k < |s| && !IsSpace(s[k])
    ensures i <= k < j <= |s| && Trim(s) == s[i..j]
    ensures forall x | j <= x < |s| :: IsSpace(s[x])
    ensures !IsSpace(s[j - 1])
  {
    i := TrimStartCuts(s);
    var t := TrimStart(s);
    assert i <= k;
    TrimEndAt(s, i);
    j := i + |TrimEnd(t)|;
  }

  /** A displayed id is the provider, a slash and the rest. */
  lemma DisplayShape(provider: string, model: string)
    ensures var full := Display(provider, model);
            && StartsWith(full, Prefix(provider)) && full[|provider|] == '/' && full[..|provider|] == provider
            && (if StartsWith(model, Prefix(provider)) then model == full else model == full[|provider| + 1..])
            && (if StartsWith(model, Prefix(provider)) then Alias(provider, model) == full[|provider| + 1..]
                else Alias(provider, model) == full)
  {
    var full := Display(provider, model);
    assert full[..|Prefix(provider)|] == Prefix(provider);
    assert full[|provider|] == Prefix(provider)[|provider|];
    assert full[..|provider|] == Prefix(provider)[..|provider|];
    if !StartsWith(model, Prefix(provider)) {
      assert full[|provider| + 1..] == model;
    }
  }

  lemma TrimmedDisplayResolves(all: seq<Provider>, p: Provider, model: string)
    requires Clean(all) && p in all && Trim(Display(p.name, model)) == Display(p.name, model)
    ensures ResolveSelection(all, Display(p.name, model)) == Ok(Selected(p.name, model))
            <==> ListedBefore(p.models, model, Alias(p.name, model))
  {
    var full := Display(p.name, model);
    DisplayShape(p.name, model);
    NoSlashInNames(all, full, |p.name|);
    ByPrefixIs(all, p, full);
    FirstOfIsFirst(p.models, model, Alias(p.name, model));
  }

  lemma NoSlashInNames(all: seq<Provider>, text: string, k: nat)
    requires Clean(all) && k < |text| && text[k] == '/'
    ensures Find(all, text).None?
  {
    assert '/' in text;
    assert forall p | p in all :: p.name != text;
  }

  lemma {:induction false} PrefixedFrom(all: seq<Provider>, text: string) returns (p: Provider)
    requires ByPrefix(all, text).Some?
    ensures p in all && StartsWith(text, Prefix(p.name)) && ByPrefix(all, text) == Some(Pick(p, text))
  {
    if StartsWith(text, Prefix(all[0].name)) {
      p := all[0];
    } else {
      p := PrefixedFrom(all[1..], text);
    }
  }

  /** With space at an end, the trimmed text is too short to mean the same model. */
  lemma PaddedIsNotPrefixed(full: string, name: string, model: string, i: nat, j: nat)
    requires '/' !in name && |name| < |full| && full[|name|] == '/' && full[..|name|] == name
    requires i <= |name| < j <= |full| && full[i..j] != full
    requires StartsWith(full[i..j], Prefix(name))
    requires model == full || (model == full[|name| + 1..] && !StartsWith(model, Prefix(name)))
    ensures model != full[i..j] && model != full[i..j][|name| + 1..]
  {
    var t := full[i..j];
    FirstSlash(t, name);
    assert t[|name| - i] == full[|name|];
    assert i == 0;
    assert full[0..|full|] == full;
  }

  lemma PaddedIsNotBare(full: string, k: nat, i: nat, j: nat)
    requires i <= k < j <= |full| && full[i..j] != full
    requires forall x | j <= x < |full| :: IsSpace(full[x])
    requires !IsSpace(full[j - 1])
    ensures full[i..j] != full[k + 1..]
  {
    var t, rest := full[i..j], full[k + 1..];
    if |t| == |rest| {
      assert t[|t| - 1] == full[j - 1];
      assert rest[|t| - 1] == full[|full| - 1];
    }
  }

  lemma PaddedPrefixMisses(all: seq<Provider>, p: Provider, model: string, full: string, i: nat, j: nat)
    requires Clean(all) && p in all && full == Display(p.name, model)
    requires i <= |p.name| < j <= |full| && full[i..j] != full
    requires ByPrefix(all, full[i..j]).Some?
    ensures ByPrefix(all, full[i..j]) != Some(Ok(Selected(p.name, model)))
  {
    DisplayShape(p.name, model);
    var q := PrefixedFrom(all, full[i..j]);
    if q.name == p.name {
      PaddedIsNotPrefixed(full, p.name, model, i, j);
    }
  }

  lemma PaddedModelMisses(all: seq<Provider>, p: Provider, model: string, full: string, i: nat, j: nat)
    requires full == Display(p.name, model)
    requires i <= |p.name| < j <= |full| && full[i..j] != full
    requires forall x | j <= x < |full| :: IsSpace(full[x])
    requires !IsSpace(full[j - 1])
    ensures ByModel(all, full[i..j]) != Some(Selected(p.name, model))
  {
    DisplayShape(p.name, model);
    PaddedIsNotBare(full, |p.name|, i, j);
    assert forall q: Provider | q.name == p.name :: !Names(q, model, full[i..j]);
  }

  lemma PaddedDisplayMisses(all: seq<Provider>, p: Provider, model: string)
    requires Clean(all) && p in all && Trim(Display(p.name, model)) != Display(p.name, model)
    ensures ResolveSelection(all, Display(p.name, model)) != Ok(Selected(p.name, model))
  {
    var full, k := Display(p.name, model), |p.name|;
    DisplayShape(p.name, model);
    assert !IsSpace(full[k]);
    var i, j := TrimCuts(full, k);
    var t := full[i..j];
    assert t[k - i] == '/';
    NoSlashInNames(all, t, k - i);
    if ByPrefix(all, t).Some? {
      PaddedPrefixMisses(all, p, model, full, i, j);
    } else {
      PaddedModelMisses(all, p, model, full, i, j);
    }
  }

  /** Exactly when a displayed id selects what it displays: it has no space at either end,
      and the provider does not list the same id in its other spelling first. */
  lemma DisplayResolvesIff(all: seq<Provider>, p: Provider, model: string)
    requires Clean(all) && p in all
    ensures ResolveSelection(all, Display(p.name, model)) == Ok(Selected(p.name, model))
            <==> && Trim(Display(p.name, model)) == Display(p.name, model)
                 && ListedBefore(p.models, model, Alias(p.name, model))
  {
    if Trim(Display(p.name, model)) == Display(p.name, model) {
      TrimmedDisplayResolves(all, p, model);
    } else {
      PaddedDisplayMisses(all, p, model);
    }
  }

  // ----- what a selection runs on

  function EffectiveSelection(builtins: seq<Provider>, config: AppConfig, s: Selected): Result<Selected, Failure> {
    if s.provider == COMBOS then
      match ComboNamed(builtins, config, s.model)
      case Some(c) =>
        if c.entries == [] then Err(UnknownCombo(s.model)) else Ok(Selected(c.entries[0].provider, c.entries[0].model))
      case None => Err(UnknownCombo(s.model))
    else Ok(s)
  }

  /** A run never starts on the virtual provider, so resolving a combo never recurs twice;
      a combo's entry always names a provider of the list. */
  lemma EffectiveIsConcrete(builtins: seq<Provider>, config: AppConfig, comboNames: seq<string>,
                            all: seq<Provider>, s: Selected)
    requires Lists(builtins, config, comboNames, all)
    requires EffectiveSelection(builtins, config, s).Ok?
    ensures var e := EffectiveSelection(builtins, config, s).value;
            && e.provider != COMBOS
            && EffectiveSelection(builtins, config, e) == Ok(e)
            && (s.provider == COMBOS ==> e.provider in NamesOf(all))
  {
    if s.provider == COMBOS {
      var entries := ComboNamed(builtins, config, s.model).value.entries;
      assert entries[0] in entries;
    }
  }

  /** A config file's own `combos` entry, if it lists models, lists only combos. */
  ghost predicate OverrideNamesCombos(builtins: seq<Provider>, config: AppConfig) {
    Lookup(config, COMBOS).Some? ==>
      forall m | m in Lookup(config, COMBOS).value.models :: ComboNamed(builtins, config, m).Some?
  }

  /** Everything on offer can be run exactly when no `combos` entry of the config file
      offers a model that is not a combo. */
  lemma OffersRunIff(builtins: seq<Provider>, config: AppConfig, comboNames: seq<string>, all: seq<Provider>)
    requires WellBuilt(builtins) && ListsCombos(builtins, config, comboNames)
    requires Lists(builtins, config, comboNames, all)
    ensures (forall s | Offers(all, s) :: EffectiveSelection(builtins, config, s).Ok?)
            <==> OverrideNamesCombos(builtins, config)
  {
    if OverrideNamesCombos(builtins, config) {
      forall s | Offers(all, s) ensures EffectiveSelection(builtins, config, s).Ok? {
        if s.provider == COMBOS {
          OfferedComboIsNamed(builtins, config, comboNames, all, s);
        }
      }
    } else {
      var m :| m in Lookup(config, COMBOS).value.models && ComboNamed(builtins, config, m).None?;
      OverrideIsOffered(builtins, config, comboNames, all, m);
      assert EffectiveSelection(builtins, config, Selected(COMBOS, m)).Err?;
    }
  }

  lemma OfferedComboIsNamed(builtins: seq<Provider>, config: AppConfig, comboNames: seq<string>,
                            all: seq<Provider>, s: Selected)
    requires WellBuilt(builtins) && ListsCombos(builtins, config, comboNames)
    requires Lists(builtins, config, comboNames, all)
    requires OverrideNamesCombos(builtins, config) && Offers(all, s) && s.provider == COMBOS
    ensures ComboNamed(builtins, config, s.model).Some?
  {
    var p :| p in all && p.name == COMBOS && s.model in p.models;
    assert p == Merged(builtins, config, comboNames, COMBOS);
    assert forall b | b in builtins :: b.name != COMBOS;
  }

  lemma OverrideIsOffered(builtins: seq<Provider>, config: AppConfig, comboNames: seq<string>,
                          all: seq<Provider>, m: string)
    requires Lists(builtins, config, comboNames, all)
    requires Lookup(config, COMBOS).Some? && m in Lookup(config, COMBOS).value.models
    ensures Offers(all, Selected(COMBOS, m))
  {
    assert COMBOS in NamesOf(all);
    var i :| 0 <= i < |all| && NamesOf(all)[i] == COMBOS;
    assert all[i] in all && all[i] == Merged(builtins, config, comboNames, COMBOS);
  }

  /** Where the map order does show: the list of combos, and with it the model a bare
      `combos` selects. It is fixed exactly when there are fewer than two combos to order or
      the config file lists the models itself. */
  lemma DefaultComboIsFixedIff(builtins: seq<Provider>, config: AppConfig, comboNames: seq<string>, all: seq<Provider>)
    requires WellBuilt(builtins) && ListsCombos(builtins, config, comboNames)
    requires Lists(builtins, config, comboNames, all)
    ensures (forall c, other | ListsCombos(builtins, config, c) && Lists(builtins, config, c, other) ::
               DefaultModel(other, COMBOS) == DefaultModel(all, COMBOS))
            <==> |comboNames| < 2 || (Lookup(config, COMBOS).Some? && Lookup(config, COMBOS).value.models != [])
  {
    if |comboNames| < 2 || (Lookup(config, COMBOS).Some? && Lookup(config, COMBOS).value.models != []) {
      forall c, other | ListsCombos(builtins, config, c) && Lists(builtins, config, c, other)
        ensures DefaultModel(other, COMBOS) == DefaultModel(all, COMBOS)
      {
        OneComboOneOrder(builtins, config, comboNames, c);
        SameDefault(builtins, config, comboNames, all, c, other);
      }
    } else {
      var c, other := SwappedListing(builtins, config, comboNames, all);
    }
  }

  lemma OneComboOneOrder(builtins: seq<Provider>, config: AppConfig, a: seq<string>, b: seq<string>)
    requires ListsCombos(builtins, config, a) && ListsCombos(builtins, config, b)
    ensures |a| < 2 ==> a == b
  {
    forall name ensures name in a <==> name in b {
    }
    EmptyTogether(a, b);
    if |a| == 1 {
      assert b[0] in a && b[|b| - 1] in a;
    }
  }

  lemma DefaultOf(builtins: seq<Provider>, config: AppConfig, c: seq<string>, all: seq<Provider>)
    requires Lists(builtins, config, c, all)
    ensures DefaultModel(all, COMBOS) ==
            if !IsListed(builtins, config, c, COMBOS) then Err(UnknownProvider(COMBOS))
            else
              var models := Merged(builtins, config, c, COMBOS).models;
              if models == [] then Err(NoModels(COMBOS)) else Ok(models[0])
  {
    var names := NamesOf(all);
    if COMBOS in names {
      var i :| 0 <= i < |all| && names[i] == COMBOS;
      assert all[i] in all;
    } else {
      assert forall p | p in all :: exists i :: 0 <= i < |all| && names[i] == p.name;
    }
  }

  lemma SameDefault(builtins: seq<Provider>, config: AppConfig, a: seq<string>, all: seq<Provider>,
                    b: seq<string>, other: seq<Provider>)
    requires ListsCombos(builtins, config, a) && Lists(builtins, config, a, all)
    requires ListsCombos(builtins, config, b) && Lists(builtins, config, b, other)
    requires a == b || (Lookup(config, COMBOS).Some? && Lookup(config, COMBOS).value.models != [])
    ensures DefaultModel(other, COMBOS) == DefaultModel(all, COMBOS)
  {
    DefaultOf(builtins, config, a, all);
    DefaultOf(builtins, config, b, other);
  }

  lemma SwappedLists(builtins: seq<Provider>, config: AppConfig, c: seq<string>)
    requires ListsCombos(builtins, config, c) && |c| >= 2
    ensures ListsCombos(builtins, config, c[0 := c[1]][1 := c[0]])
  {
    var swapped := c[0 := c[1]][1 := c[0]];
    assert forall i | 0 <= i < |c| :: swapped[i] == c[if i < 2 then 1 - i else i];
    assert forall i | 0 <= i < |c| :: c[i] == swapped[if i < 2 then 1 - i else i];
    forall name ensures name in swapped <==> name in c {
    }
  }

  lemma SwappedListing(builtins: seq<Provider>, config: AppConfig, c: seq<string>, all: seq<Provider>)
    returns (swapped: seq<string>, other: seq<Provider>)
    requires ListsCombos(builtins, config, c) && Lists(builtins, config, c, all)
    requires |c| >= 2 && !(Lookup(config, COMBOS).Some? && Lookup(config, COMBOS).value.models != [])
    ensures ListsCombos(builtins, config, swapped) && Lists(builtins, config, swapped, other)
    ensures DefaultModel(other, COMBOS) != DefaultModel(all, COMBOS)
  {
    swapped := c[0 := c[1]][1 := c[0]];
    SwappedLists(builtins, config, c);
    other := seq(|all|, i requires 0 <= i < |all| => Merged(builtins, config, swapped, all[i].name));
    assert NamesOf(other) == NamesOf(all);
    DefaultOf(builtins, config, c, all);
    DefaultOf(builtins, config, swapped, other);
  }
}
