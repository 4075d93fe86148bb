/**
 The provider catalogue: built-in providers, the virtual `combos` provider and the entries
 of the config file merged into one ordered list. The source keeps the pieces in hash maps,
 so every walk over one is in an arbitrary order.
 */
module Providers {
  import opened Wrappers
  import opened Text
  import opened Sequences

  datatype ComboEntry = ComboEntry(provider: string, model: string)

  datatype Combo = Combo(name: string, entries: seq<ComboEntry>)

  datatype ProviderEntry = ProviderEntry(baseUrl: Option<string>, apiKey: Option<string>, models: seq<string>)

  datatype Provider = Provider(name: string, baseUrl: string, apiKey: string, models: seq<string>)

  datatype AppConfig = AppConfig(
    provider: string,
    model: string,
    combos: map<string, seq<ComboEntry>>,
    providers: map<string, ProviderEntry>)

  const COMBOS := "combos"

  /** The built-in table: every name once, and none that of the virtual provider. */
  ghost predicate WellBuilt(builtins: seq<Provider>) {
    && (forall i | 0 <= i < |builtins| :: builtins[i].name != COMBOS)
    && (forall i, j | 0 <= i < j < |builtins| :: builtins[i].name != builtins[j].name)
  }

  function Find(all: seq<Provider>, name: string): (r: Option<Provider>)
    ensures r.Some? ==> r.value in all && r.value.name == name
    ensures r.None? ==> forall p | p in all :: p.name != name
  {
    if all == [] then None
    else if all[0].name == name then Some(all[0])
    else Find(all[1..], name)
  }

  // ----- combos

  predicate IsKnownProvider(builtins: seq<Provider>, config: AppConfig, name: string) {
    (Find(builtins, name).Some? || name in config.providers) && name != COMBOS
  }

  function ValidEntries(builtins: seq<Provider>, config: AppConfig, entries: seq<ComboEntry>): (r: seq<ComboEntry>)
    ensures forall e :: e in r <==> e in entries && IsKnownProvider(builtins, config, e.provider)
  {
    if entries == [] then []
    else if IsKnownProvider(builtins, config, entries[0].provider)
    then [entries[0]] + ValidEntries(builtins, config, entries[1..])
    else ValidEntries(builtins, config, entries[1..])
  }

  /** The combo that `name` stands for: dropped when no entry is valid. */
  function ComboNamed(builtins: seq<Provider>, config: AppConfig, name: string): Option<Combo> {
    if name !in config.combos then None
    else
      var valid := ValidEntries(builtins, config, config.combos[name]);
      if valid == [] then None else Some(Combo(name, valid))
  }

  function ComboNames(out: seq<Combo>): (names: seq<string>)
    ensures |names| == |out|
    ensures forall i | 0 <= i < |out| :: names[i] == out[i].name
  {
    seq(|out|, i requires 0 <= i < |out| => out[i].name)
  }

  /** `names` lists the usable combos in some order, each once. */
  ghost predicate ListsCombos(builtins: seq<Provider>, config: AppConfig, names: seq<string>) {
    && NoRepeats(names)
    && (forall name :: name in names <==> ComboNamed(builtins, config, name).Some?)
  }

  method Combos(builtins: seq<Provider>, config: AppConfig) returns (out: seq<Combo>)
    ensures ListsCombos(builtins, config, ComboNames(out))
    ensures forall c | c in out :: ComboNamed(builtins, config, c.name) == Some(c)
  {
    out := [];
    var left := config.combos.Keys;
    while left != {}
      invariant left <= config.combos.Keys
      invariant NoRepeats(ComboNames(out))
      invariant forall name | name in ComboNames(out) :: name !in left
      invariant forall name :: name in ComboNames(out) <==> name !in left && ComboNamed(builtins, config, name).Some?
      invariant forall c | c in out :: ComboNamed(builtins, config, c.name) == Some(c)
    {
      var name: string :| name in left;
      left := left - {name};
      var valid := KeepValid(builtins, config, config.combos[name]);
      if valid != [] {
        assert ComboNames(out + [Combo(name, valid)]) == ComboNames(out) + [name];
        out := out + [Combo(name, valid)];
      }
    }
  }

  method KeepValid(builtins: seq<Provider>, config: AppConfig, entries: seq<ComboEntry>) returns (valid: seq<ComboEntry>)
    ensures valid == ValidEntries(builtins, config, entries)
  {
    valid := [];
    for i := 0 to |entries|
      invariant valid + ValidEntries(builtins, config, entries[i..]) == ValidEntries(builtins, config, entries)
    {
      assert entries[i..][0] == entries[i] && entries[i..][1..] == entries[i + 1..];
      if IsKnownProvider(builtins, config, entries[i].provider) {
        valid := valid + [entries[i]];
      }
    }
  }

  // ----- the order

  function Position(builtins: seq<Provider>, name: string): (r: Option<nat>)
    ensures r.Some? ==> r.value < |builtins| && builtins[r.value].name == name
    ensures r.None? ==> forall p | p in builtins :: p.name != name
  {
    if builtins == [] then None
    else if builtins[0].name == name then Some(0)
    else
      var r := Position(builtins[1..], name);
      if r.Some? then Some(r.value + 1) else None
  }

  /** Built-ins by position, then `combos`, then everything else. */
  function Rank(builtins: seq<Provider>, name: string): nat {
    var at := Position(builtins, name);
    if at.Some? then at.value else if name == COMBOS then |builtins| else |builtins| + 1
  }

  predicate Precedes(builtins: seq<Provider>, a: string, b: string) {
    Rank(builtins, a) < Rank(builtins, b) || (Rank(builtins, a) == Rank(builtins, b) && StringLess(a, b))
  }

  lemma PrecedesIsStrict(builtins: seq<Provider>, a: string, b: string, c: string)
    ensures !Precedes(builtins, a, a)
    ensures Precedes(builtins, a, b) && Precedes(builtins, b, c) ==> Precedes(builtins, a, c)
    ensures a != b ==> Precedes(builtins, a, b) || Precedes(builtins, b, a)
  {
    StringLessIsStrict(a, b, c);
  }

  function NamesOf(all: seq<Provider>): (names: seq<string>)
    ensures |names| == |all|
    ensures forall i | 0 <= i < |all| :: names[i] == all[i].name
  {
    seq(|all|, i requires 0 <= i < |all| => all[i].name)
  }

  ghost predicate Ordered(builtins: seq<Provider>, names: seq<string>) {
    forall i, j | 0 <= i < j < |names| :: Precedes(builtins, names[i], names[j])
  }

  /** The list sort of the source, one insertion at a time. */
  function Inserted(builtins: seq<Provider>, all: seq<Provider>, p: Provider): seq<Provider> {
    if all == [] || Precedes(builtins, p.name, all[0].name) then [p] + all
    else [all[0]] + Inserted(builtins, all[1..], p)
  }

  lemma {:induction false} InsertedIsOrdered(builtins: seq<Provider>, all: seq<Provider>, p: Provider)
    requires Ordered(builtins, NamesOf(all)) && p.name !in NamesOf(all)
    ensures Ordered(builtins, NamesOf(Inserted(builtins, all, p)))
    ensures forall q :: q in Inserted(builtins, all, p) <==> q in all || q == p
  {
    var names := NamesOf(all);
    if all == [] {
    } else if Precedes(builtins, p.name, all[0].name) {
      forall j | 0 <= j < |all| ensures Precedes(builtins, p.name, names[j]) {
        PrecedesIsStrict(builtins, p.name, names[0], names[j]);
      }
      assert NamesOf([p] + all) == [p.name] + names;
    } else {
      assert names[0] in names;
      PrecedesIsStrict(builtins, p.name, names[0], "");
      assert NamesOf(all[1..]) == names[1..];
      InsertedIsOrdered(builtins, all[1..], p);
      InsertedBehind(builtins, all, p);
    }
  }

  lemma InsertedBehind(builtins: seq<Provider>, all: seq<Provider>, p: Provider)
    requires all != [] && Ordered(builtins, NamesOf(all)) && Precedes(builtins, all[0].name, p.name)
    requires var rest := Inserted(builtins, all[1..], p);
             Ordered(builtins, NamesOf(rest)) && forall q :: q in rest <==> q in all[1..] || q == p
    ensures var rest := Inserted(builtins, all[1..], p);
            && Ordered(builtins, NamesOf([all[0]] + rest))
            && forall q :: q in [all[0]] + rest <==> q in all || q == p
  {
    var rest := Inserted(builtins, all[1..], p);
    assert all == [all[0]] + all[1..];
    forall j | 0 <= j < |rest| ensures Precedes(builtins, all[0].name, NamesOf(rest)[j]) {
      assert rest[j] in rest;
      if rest[j] != p {
        var k :| 0 <= k < |all[1..]| && all[1..][k] == rest[j];
        assert NamesOf(all)[k + 1] == rest[j].name;
      }
    }
    OrderedBehind(builtins, all[0].name, NamesOf(rest));
    assert NamesOf([all[0]] + rest) == [all[0].name] + NamesOf(rest);
  }

  lemma OrderedBehind(builtins: seq<Provider>, first: string, names: seq<string>)
    requires Ordered(builtins, names) && forall j | 0 <= j < |names| :: Precedes(builtins, first, names[j])
    ensures Ordered(builtins, [first] + names)
  {
    var all := [first] + names;
    forall i, j | 0 <= i < j < |all| ensures Precedes(builtins, all[i], all[j]) {
      assert all[j] == names[j - 1];
      assert i > 0 ==> all[i] == names[i - 1];
    }
  }

  lemma {:induction false} OrderedIsUnique(builtins: seq<Provider>, a: seq<string>, b: seq<string>)
    requires Ordered(builtins, a) && Ordered(builtins, b)
    requires forall name :: name in a <==> name in b
    ensures a == b
  {
    EmptyTogether(a, b);
    if a != [] {
      assert a[0] in a && a[0] in b;
      assert b[0] in b && b[0] in a;
      HeadsAgree(builtins, a, b);
      OrderedOnce(builtins, a);
      OrderedOnce(builtins, b);
      forall name ensures name in a[1..] <==> name in b[1..] {
        assert a == [a[0]] + a[1..] && b == [b[0]] + b[1..];
        assert name in a <==> name in b;
      }
      OrderedIsUnique(builtins, a[1..], b[1..]);
      assert a == [a[0]] + a[1..] && b == [b[0]] + b[1..];
    }
  }

  lemma EmptyTogether(a: seq<string>, b: seq<string>)
    requires forall name :: name in a <==> name in b
    ensures a == [] <==> b == []
  {
    if a != [] {
      assert a[0] in a;
    }
    if b != [] {
      assert b[0] in b;
    }
  }

  lemma OrderedOnce(builtins: seq<Provider>, a: seq<string>)
    requires Ordered(builtins, a) && a != []
    ensures a[0] !in a[1..]
  {
    if i :| 0 <= i < |a[1..]| && a[1..][i] == a[0] {
      assert Precedes(builtins, a[0], a[i + 1]);
      PrecedesIsStrict(builtins, a[0], a[0], a[0]);
    }
  }

  lemma HeadsAgree(builtins: seq<Provider>, a: seq<string>, b: seq<string>)
    requires Ordered(builtins, a) && Ordered(builtins, b)
    requires a != [] && b != [] && a[0] in b && b[0] in a
    ensures a[0] == b[0]
  {
    var i :| 0 <= i < |b| && b[i] == a[0];
    var j :| 0 <= j < |a| && a[j] == b[0];
    PrecedesIsStrict(builtins, a[0], b[0], a[0]);
  }

  // ----- the merged list

  function Lookup(config: AppConfig, name: string): Option<ProviderEntry> {
    if name in config.providers then Some(config.providers[name]) else None
  }

  /** What stands under `name` before the config file's entry is laid over it. */
  function Base(builtins: seq<Provider>, comboNames: seq<string>, name: string): (p: Provider)
    ensures p.name == name
  {
    if name == COMBOS && comboNames != [] then Provider(COMBOS, "", "", comboNames)
    else match Find(builtins, name) case Some(p) => p case None => Provider(name, "", "", [])
  }

  function Overlay(p: Provider, entry: Option<ProviderEntry>): (r: Provider)
    ensures r.name == p.name
  {
    if entry.None? then p
    else Provider(
      p.name,
      if entry.value.baseUrl.Some? then entry.value.baseUrl.value else p.baseUrl,
      if entry.value.apiKey.Some? then entry.value.apiKey.value else p.apiKey,
      if entry.value.models != [] then entry.value.models else p.models)
  }

  function Merged(builtins: seq<Provider>, config: AppConfig, comboNames: seq<string>, name: string): (p: Provider)
    ensures p.name == name
  {
    Overlay(Base(builtins, comboNames, name), Lookup(config, name))
  }

  predicate IsListed(builtins: seq<Provider>, config: AppConfig, comboNames: seq<string>, name: string) {
    Find(builtins, name).Some? || (name == COMBOS && comboNames != []) || name in config.providers
  }

  /** The list of all providers, given the order in which the combos came out of their map. */
  ghost predicate Lists(builtins: seq<Provider>, config: AppConfig, comboNames: seq<string>, all: seq<Provider>) {
    && Ordered(builtins, NamesOf(all))
    && (forall name :: name in NamesOf(all) <==> IsListed(builtins, config, comboNames, name))
    && (forall p | p in all :: p == Merged(builtins, config, comboNames, p.name))
  }

  /** The list for one of the orders in which the combos may come. */
  ghost predicate IsCatalogue(builtins: seq<Provider>, config: AppConfig, all: seq<Provider>) {
    exists comboNames :: ListsCombos(builtins, config, comboNames) && Lists(builtins, config, comboNames, all)
  }

  /** The part of the merge done so far: `done` entries of the config file are in. */
  ghost predicate PartlyMerged(builtins: seq<Provider>, config: AppConfig, comboNames: seq<string>,
                               byName: map<string, Provider>, done: set<string>)
  {
    && (forall name :: name in byName <==>
          Find(builtins, name).Some? || (name == COMBOS && comboNames != []) || name in done)
    && (forall name | name in byName ::
          byName[name] == Overlay(Base(builtins, comboNames, name), if name in done then Lookup(config, name) else None))
  }

  method ListProviders(builtins: seq<Provider>, config: AppConfig)
    returns (all: seq<Provider>)
    requires WellBuilt(builtins)
    ensures IsCatalogue(builtins, config, all)
  {
    var byName := ByName(builtins);
    var combos := Combos(builtins, config);
    ghost var comboNames := ComboNames(combos);
    if combos != [] {
      byName := byName[COMBOS := Provider(COMBOS, "", "", ComboNames(combos))];
    }
    NothingLaidYet(builtins, config, comboNames, byName);
    byName := LayConfigOver(builtins, config, comboNames, byName);
    all := SortProviders(builtins, byName);
    SortedMergeLists(builtins, config, comboNames, byName, all);
  }

  lemma NothingLaidYet(builtins: seq<Provider>, config: AppConfig, comboNames: seq<string>, byName: map<string, Provider>)
    requires forall name :: name in byName <==> Find(builtins, name).Some? || (name == COMBOS && comboNames != [])
    requires forall name | name in byName :: byName[name] == Base(builtins, comboNames, name)
    ensures PartlyMerged(builtins, config, comboNames, byName, {})
  {
  }

  lemma SortedMergeLists(builtins: seq<Provider>, config: AppConfig, comboNames: seq<string>,
                         byName: map<string, Provider>, all: seq<Provider>)
    requires PartlyMerged(builtins, config, comboNames, byName, config.providers.Keys)
    requires Ordered(builtins, NamesOf(all))
    requires forall name :: name in NamesOf(all) <==> name in byName
    requires forall p | p in all :: p.name in byName && byName[p.name] == p
    ensures Lists(builtins, config, comboNames, all)
  {
  }

  method ByName(builtins: seq<Provider>) returns (byName: map<string, Provider>)
    requires WellBuilt(builtins)
    ensures forall name :: name in byName <==> Find(builtins, name).Some?
    ensures forall name | name in byName :: Find(builtins, name) == Some(byName[name])
  {
    byName := map[];
    for i := 0 to |builtins|
      invariant forall name :: name in byName <==> Find(builtins[..i], name).Some?
      invariant forall name | name in byName :: Find(builtins, name) == Some(byName[name])
    {
      FindInPrefix(builtins, i);
      FindThere(builtins, i);
      byName := byName[builtins[i].name := builtins[i]];
    }
    assert builtins[..|builtins|] == builtins;
  }

  method LayConfigOver(builtins: seq<Provider>, config: AppConfig, ghost comboNames: seq<string>,
                       unlaid: map<string, Provider>)
    returns (byName: map<string, Provider>)
    requires PartlyMerged(builtins, config, comboNames, unlaid, {})
    ensures PartlyMerged(builtins, config, comboNames, byName, config.providers.Keys)
  {
    byName := unlaid;
    var left := config.providers.Keys;
    assert config.providers.Keys - left == {};
    while left != {}
      invariant left <= config.providers.Keys
      invariant PartlyMerged(builtins, config, comboNames, byName, config.providers.Keys - left)
    {
      var name: string :| name in left;
      var entry := config.providers[name];
      var p := if name in byName then byName[name] else Provider(name, "", "", []);
      if entry.baseUrl.Some? {
        p := p.(baseUrl := entry.baseUrl.value);
      }
      if entry.apiKey.Some? {
        p := p.(apiKey := entry.apiKey.value);
      }
      if entry.models != [] {
        p := p.(models := entry.models);
      }
      OneMoreMerged(builtins, config, comboNames, byName, config.providers.Keys - left, name);
      assert config.providers.Keys - left + {name} == config.providers.Keys - (left - {name});
      byName := byName[name := p];
      left := left - {name};
    }
    assert config.providers.Keys - left == config.providers.Keys;
  }

  lemma OneMoreMerged(builtins: seq<Provider>, config: AppConfig, comboNames: seq<string>,
                      byName: map<string, Provider>, done: set<string>, name: string)
    requires PartlyMerged(builtins, config, comboNames, byName, done) && name in config.providers && name !in done
    ensures var p := if name in byName then byName[name] else Provider(name, "", "", []);
            PartlyMerged(builtins, config, comboNames, byName[name := Overlay(p, Some(config.providers[name]))], done + {name})
  {
  }

  lemma {:induction false} FindAppend(a: seq<Provider>, p: Provider, name: string)
    ensures Find(a + [p], name).Some? <==> Find(a, name).Some? || name == p.name
  {
    if a == [] {
      assert a + [p] == [p];
    } else {
      FindAppend(a[1..], p, name);
      assert (a + [p])[1..] == a[1..] + [p];
    }
  }

  lemma FindInPrefix(builtins: seq<Provider>, i: nat)
    requires WellBuilt(builtins) && i < |builtins|
    ensures forall name :: Find(builtins[..i + 1], name).Some? <==>
              Find(builtins[..i], name).Some? || name == builtins[i].name
  {
    assert builtins[..i + 1] == builtins[..i] + [builtins[i]];
    forall name ensures Find(builtins[..i + 1], name).Some? <==>
                          Find(builtins[..i], name).Some? || name == builtins[i].name
    {
      FindAppend(builtins[..i], builtins[i], name);
    }
  }

  lemma FindThere(builtins: seq<Provider>, i: nat)
    requires WellBuilt(builtins) && i < |builtins|
    ensures Find(builtins, builtins[i].name) == Some(builtins[i])
  {
    assert builtins[i] in builtins;
    var p := Find(builtins, builtins[i].name).value;
    var j :| 0 <= j < |builtins| && builtins[j] == p;
  }

  method SortProviders(builtins: seq<Provider>, byName: map<string, Provider>) returns (all: seq<Provider>)
    requires forall name | name in byName :: byName[name].name == name
    ensures Ordered(builtins, NamesOf(all))
    ensures forall name :: name in NamesOf(all) <==> name in byName
    ensures forall p | p in all :: p.name in byName && byName[p.name] == p
  {
    all := [];
    var left := byName.Keys;
    while left != {}
      invariant left <= byName.Keys
      invariant Ordered(builtins, NamesOf(all))
      invariant forall p :: p in all <==> p.name in byName && p.name !in left && byName[p.name] == p
    {
      var name: string :| name in left;
      assert name !in NamesOf(all);
      InsertedIsOrdered(builtins, all, byName[name]);
      all := Inserted(builtins, all, byName[name]);
      left := left - {name};
    }
    forall name ensures name in NamesOf(all) <==> name in byName {
      if name in byName {
        assert byName[name] in all;
      }
    }
  }

  /** Whatever order the maps yield, the names come out in one order, and every provider but
      an unlisted-models `combos` is the same record; that one lists the same combos. */
  lemma HashOrderIsInvisible(builtins: seq<Provider>, config: AppConfig,
                             c1: seq<string>, all1: seq<Provider>, c2: seq<string>, all2: seq<Provider>)
    requires ListsCombos(builtins, config, c1) && Lists(builtins, config, c1, all1)
    requires ListsCombos(builtins, config, c2) && Lists(builtins, config, c2, all2)
    ensures NamesOf(all1) == NamesOf(all2)
    ensures forall i | 0 <= i < |all1| && all1[i].name != COMBOS :: all1[i] == all2[i]
    ensures forall i | 0 <= i < |all1| :: forall m :: m in all1[i].models <==> m in all2[i].models
    ensures forall i | 0 <= i < |all1| && Lookup(config, COMBOS).Some? && Lookup(config, COMBOS).value.models != [] ::
              all1[i] == all2[i]
  {
    assert c1 == [] <==> c2 == [] by {
      assert c1 != [] ==> c1[0] in c1;
      assert c2 != [] ==> c2[0] in c2;
    }
    OrderedIsUnique(builtins, NamesOf(all1), NamesOf(all2));
    forall i | 0 <= i < |all1|
      ensures all1[i] == Merged(builtins, config, c1, all1[i].name)
      ensures all2[i] == Merged(builtins, config, c2, all1[i].name)
    {
      assert NamesOf(all1)[i] == NamesOf(all2)[i];
      assert all1[i] in all1 && all2[i] in all2;
    }
  }

  /** The names, and so the positions, are each there once. */
  lemma ListedOnce(builtins: seq<Provider>, config: AppConfig, comboNames: seq<string>, all: seq<Provider>)
    requires Lists(builtins, config, comboNames, all)
    ensures NoRepeats(NamesOf(all))
  {
    forall i, j | 0 <= i < j < |all| ensures all[i].name != all[j].name {
      assert Precedes(builtins, NamesOf(all)[i], NamesOf(all)[j]);
      PrecedesIsStrict(builtins, all[i].name, all[i].name, all[i].name);
    }
  }
}
