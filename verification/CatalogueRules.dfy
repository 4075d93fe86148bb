/** The rules of the catalogue and of model references, one by one. */
module CatalogueRules {
  import opened Wrappers
  import opened Text
  import opened Sequences
  import opened Providers
  import opened Selection

  // ----- combos

  /** The entries of a combo keep their order; one stays if its provider is built in or
      configured and is not the virtual one. */
  lemma {:induction false} EntriesKeepTheirOrder(builtins: seq<Provider>, config: AppConfig, a: seq<ComboEntry>, e: ComboEntry)
    ensures ValidEntries(builtins, config, []) == []
    ensures ValidEntries(builtins, config, a + [e]) ==
            ValidEntries(builtins, config, a)
            + if e.provider != "combos" && (e.provider in config.providers || exists b :: b in builtins && b.name == e.provider)
              then [e] else []
  {
    if a == [] {
      assert a + [e] == [e] && [e][1..] == [];
    } else {
      EntriesKeepTheirOrder(builtins, config, a[1..], e);
      HeadOfAppend(a, [e]);
      Associates([a[0]], ValidEntries(builtins, config, a[1..]), ValidEntries(builtins, config, a + [e])[|ValidEntries(builtins, config, a)|..]);
    }
  }

  /** A combo is there if the config file has one of the name with an entry that stays; a run on
      it starts on the first such entry, and a run on anything else on what was selected. */
  lemma RunsStartOn(builtins: seq<Provider>, config: AppConfig, name: string, provider: string, model: string)
    ensures var kept := if name in config.combos then ValidEntries(builtins, config, config.combos[name]) else [];
            && ComboNamed(builtins, config, name) == (if kept == [] then None else Some(Combo(name, kept)))
            && EffectiveSelection(builtins, config, Selected("combos", name)) ==
               if kept == [] then Err(UnknownCombo(name)) else Ok(Selected(kept[0].provider, kept[0].model))
    ensures provider != "combos" ==>
              EffectiveSelection(builtins, config, Selected(provider, model)) == Ok(Selected(provider, model))
  {
  }

  // ----- the merged list

  /** Each member of a provider's record is the config file's if it gives one, else that of the
      built-in provider, or of the combos under their own name, or nothing. */
  lemma ConfigWins(builtins: seq<Provider>, config: AppConfig, comboNames: seq<string>, name: string)
    requires WellBuilt(builtins)
    ensures var p := Merged(builtins, config, comboNames, name);
            var given := if name in config.providers then config.providers[name] else ProviderEntry(None, None, []);
            && p.name == name
            && (given.baseUrl.Some? ==> p.baseUrl == given.baseUrl.value)
            && (given.apiKey.Some? ==> p.apiKey == given.apiKey.value)
            && (given.models != [] ==> p.models == given.models)
            && (forall b | b in builtins && b.name == name ::
                  && (given.baseUrl.None? ==> p.baseUrl == b.baseUrl)
                  && (given.apiKey.None? ==> p.apiKey == b.apiKey)
                  && (given.models == [] ==> p.models == b.models))
            && (given.baseUrl.None? && (forall b | b in builtins :: b.name != name) ==> p.baseUrl == "")
            && (given.apiKey.None? && (forall b | b in builtins :: b.name != name) ==> p.apiKey == "")
            && (given.models == [] && (forall b | b in builtins :: b.name != name) ==>
                  p.models == if name == "combos" then comboNames else [])
  {
    forall b | b in builtins && b.name == name ensures Find(builtins, name) == Some(b) {
      OnlyOneNamed(builtins, b);
    }
  }

  lemma OnlyOneNamed(builtins: seq<Provider>, b: Provider)
    requires WellBuilt(builtins) && b in builtins
    ensures Find(builtins, b.name) == Some(b) && b.name != "combos"
  {
    var f := Find(builtins, b.name).value;
    var i :| 0 <= i < |builtins| && builtins[i] == b;
    var j :| 0 <= j < |builtins| && builtins[j] == f;
    assert i == j;
  }

  /** Who is listed: built-in, configured, or the combos when there is one. */
  lemma WhoIsListed(builtins: seq<Provider>, config: AppConfig, all: seq<Provider>, name: string)
    requires IsCatalogue(builtins, config, all)
    ensures (exists p :: p in all && p.name == name) <==>
              || (exists b :: b in builtins && b.name == name)
              || name in config.providers
              || (name == "combos" && exists c :: ComboNamed(builtins, config, c).Some?)
  {
    var comboNames :| ListsCombos(builtins, config, comboNames) && Lists(builtins, config, comboNames, all);
    assert comboNames != [] <==> exists c :: ComboNamed(builtins, config, c).Some? by {
      if comboNames != [] {
        assert comboNames[0] in comboNames;
      }
    }
    if p :| p in all && p.name == name {
      var i :| 0 <= i < |all| && all[i] == p;
      assert NamesOf(all)[i] == name;
    }
    if name in NamesOf(all) {
      var i :| 0 <= i < |all| && NamesOf(all)[i] == name;
      assert all[i] in all;
    }
  }

  lemma {:induction false} PositionIs(builtins: seq<Provider>, i: nat)
    requires i < |builtins|
    requires forall a, b | 0 <= a < b < |builtins| :: builtins[a].name != builtins[b].name
    ensures Position(builtins, builtins[i].name) == Some(i)
  {
    if i > 0 {
      assert builtins[0].name != builtins[i].name;
      PositionIs(builtins[1..], i - 1);
    }
  }

  /** The order of the list: the built-in providers in their own order, then the combos, then the
      others by name. */
  lemma ListOrder(builtins: seq<Provider>, i: nat, j: nat, a: string, b: string)
    requires WellBuilt(builtins) && i < j < |builtins|
    requires a != "combos" && b != "combos" && forall p | p in builtins :: p.name != a && p.name != b
    ensures Precedes(builtins, builtins[i].name, builtins[j].name)
    ensures Precedes(builtins, builtins[j].name, "combos") && Precedes(builtins, "combos", a)
    ensures Precedes(builtins, a, b) <==> StringLess(a, b)
  {
    PositionIs(builtins, i);
    PositionIs(builtins, j);
  }

  // ----- model references

  /** A provider's default is the first model it lists. */
  lemma {:induction false} DefaultIsTheFirst(all: seq<Provider>, i: nat)
    requires i < |all| && forall k | 0 <= k < i :: all[k].name != all[i].name
    ensures Find(all, all[i].name) == Some(all[i])
    ensures DefaultModel(all, all[i].name) ==
            if all[i].models == [] then Err(NoModels(all[i].name)) else Ok(all[i].models[0])
  {
    if i > 0 {
      assert all[0].name != all[i].name;
      DefaultIsTheFirst(all[1..], i - 1);
    }
  }

  /** First, a reference that is a provider's name means its default. */
  lemma NameMeansDefault(all: seq<Provider>, text: string, i: nat)
    requires i < |all| && all[i].name == Trim(text) != "" && forall k | 0 <= k < i :: all[k].name != all[i].name
    ensures ResolveSelection(all, text) ==
            if all[i].models == [] then Err(NoModels(all[i].name)) else Ok(Selected(all[i].name, all[i].models[0]))
  {
    DefaultIsTheFirst(all, i);
  }

  predicate Prefixed(p: Provider, text: string) {
    StartsWith(text, p.name + "/")
  }

  /** Then, one that begins with a provider's name and a slash means a model of that provider:
      the first listed under the rest, or under the whole, of the reference. */
  lemma PrefixMeansProvider(all: seq<Provider>, text: string, i: nat)
    requires Trim(text) != "" && forall p | p in all :: p.name != Trim(text)
    requires i < |all| && Prefixed(all[i], Trim(text)) && forall k | 0 <= k < i :: !Prefixed(all[k], Trim(text))
    ensures var p, t := all[i], Trim(text);
            var rest := t[|p.name| + 1..];
            && (forall j | 0 <= j < |p.models| && (p.models[j] == rest || p.models[j] == t)
                           && (forall k | 0 <= k < j :: p.models[k] != rest && p.models[k] != t) ::
                  ResolveSelection(all, text) == Ok(Selected(p.name, p.models[j])))
            && ((forall m | m in p.models :: m != rest && m != t) ==>
                  ResolveSelection(all, text) == Err(UnknownModel(p.name, rest)))
  {
    var p, t := all[i], Trim(text);
    var rest := t[|p.name| + 1..];
    PrefixFound(all, t, i);
    forall j | 0 <= j < |p.models| && (p.models[j] == rest || p.models[j] == t)
               && (forall k | 0 <= k < j :: p.models[k] != rest && p.models[k] != t)
      ensures FirstOf(p.models, rest, t) == Some(p.models[j])
    {
      FirstOfAt(p.models, rest, t, j);
    }
  }

  lemma {:induction false} PrefixFound(all: seq<Provider>, t: string, i: nat)
    requires i < |all| && Prefixed(all[i], t) && forall k | 0 <= k < i :: !Prefixed(all[k], t)
    ensures ByPrefix(all, t) == Some(Pick(all[i], t))
  {
    if i > 0 {
      assert !Prefixed(all[0], t);
      PrefixFound(all[1..], t, i - 1);
    }
  }

  lemma {:induction false} FirstOfAt(models: seq<string>, rest: string, text: string, j: nat)
    requires j < |models| && (models[j] == rest || models[j] == text)
    requires forall k | 0 <= k < j :: models[k] != rest && models[k] != text
    ensures FirstOf(models, rest, text) == Some(models[j])
  {
    if j > 0 {
      assert models[0] != rest && models[0] != text;
      FirstOfAt(models[1..], rest, text, j - 1);
    }
  }

  predicate Bears(p: Provider, model: string, text: string) {
    model == text || model == p.name + "/" + text
  }

  lemma BearsIsNames(p: Provider, model: string, text: string)
    ensures Bears(p, model, text) <==> Names(p, model, text)
  {
    if Names(p, model, text) && model != text {
      assert model == model[..|p.name| + 1] + model[|p.name| + 1..];
    }
    if model == p.name + "/" + text {
      assert model[..|p.name| + 1] == Prefix(p.name) && model[|p.name| + 1..] == text;
    }
  }

  /** Last, it means the first model of the list under that name, with or without the
      provider's prefix. */
  lemma BareNameMeansFirst(all: seq<Provider>, text: string, i: nat, j: nat)
    requires Trim(text) != "" && forall p | p in all :: p.name != Trim(text) && !Prefixed(p, Trim(text))
    requires i < |all| && j < |all[i].models| && Bears(all[i], all[i].models[j], Trim(text))
    requires forall k | 0 <= k < i :: forall m | m in all[k].models :: !Bears(all[k], m, Trim(text))
    requires forall k | 0 <= k < j :: !Bears(all[i], all[i].models[k], Trim(text))
    ensures ResolveSelection(all, text) == Ok(Selected(all[i].name, all[i].models[j]))
  {
    NoPrefix(all, Trim(text));
    BareFound(all, Trim(text), i, j);
  }

  lemma {:induction false} NoPrefix(all: seq<Provider>, t: string)
    requires forall p | p in all :: !Prefixed(p, t)
    ensures ByPrefix(all, t).None?
  {
    if all != [] {
      assert all[0] in all && forall p | p in all[1..] :: p in all;
      NoPrefix(all[1..], t);
    }
  }

  lemma {:induction false} BareFound(all: seq<Provider>, t: string, i: nat, j: nat)
    requires i < |all| && j < |all[i].models| && Bears(all[i], all[i].models[j], t)
    requires forall k | 0 <= k < i :: forall m | m in all[k].models :: !Bears(all[k], m, t)
    requires forall k | 0 <= k < j :: !Bears(all[i], all[i].models[k], t)
    ensures ByModel(all, t) == Some(Selected(all[i].name, all[i].models[j]))
  {
    if i == 0 {
      NamedAt(all[0], all[0].models, t, j);
    } else {
      NoneNamed(all[0], all[0].models, t);
      BareFound(all[1..], t, i - 1, j);
    }
  }

  lemma {:induction false} NamedAt(p: Provider, models: seq<string>, t: string, j: nat)
    requires j < |models| && Bears(p, models[j], t) && forall k | 0 <= k < j :: !Bears(p, models[k], t)
    ensures FirstNamed(p, models, t) == Some(models[j])
  {
    BearsIsNames(p, models[0], t);
    if j > 0 {
      NamedAt(p, models[1..], t, j - 1);
    }
  }

  lemma {:induction false} NoneNamed(p: Provider, models: seq<string>, t: string)
    requires forall m | m in models :: !Bears(p, m, t)
    ensures FirstNamed(p, models, t).None?
  {
    if models != [] {
      assert models[0] in models && forall m | m in models[1..] :: m in models;
      BearsIsNames(p, models[0], t);
      NoneNamed(p, models[1..], t);
    }
  }

  /** And nothing otherwise. */
  lemma NothingMeant(all: seq<Provider>, text: string)
    ensures Trim(text) == "" ==> ResolveSelection(all, text) == Err(EmptyReference)
    ensures Trim(text) != "" && (forall p | p in all :: p.name != Trim(text) && !Prefixed(p, Trim(text))
                                                    && forall m | m in p.models :: !Bears(p, m, Trim(text))) ==>
              ResolveSelection(all, text) == Err(UnknownReference(Trim(text)))
  {
    if Trim(text) != "" && (forall p | p in all :: p.name != Trim(text) && !Prefixed(p, Trim(text))
                                                && forall m | m in p.models :: !Bears(p, m, Trim(text))) {
      NoPrefix(all, Trim(text));
      NoneBears(all, Trim(text));
    }
  }

  lemma {:induction false} NoneBears(all: seq<Provider>, t: string)
    requires forall p | p in all :: forall m | m in p.models :: !Bears(p, m, t)
    ensures ByModel(all, t).None?
  {
    if all != [] {
      assert all[0] in all && forall p | p in all[1..] :: p in all;
      NoneNamed(all[0], all[0].models, t);
      NoneBears(all[1..], t);
    }
  }

  /** How a selection is shown: with its provider's prefix, which is not written twice. */
  lemma ShownWithPrefix(provider: string, rest: string, model: string)
    ensures Display(provider, provider + "/" + rest) == provider + "/" + rest
    ensures !StartsWith(model, provider + "/") ==> Display(provider, model) == provider + "/" + model
  {
    assert (provider + "/" + rest)[..|provider| + 1] == Prefix(provider);
  }
}
