/** Which of a checkout's remotes is taken as the GitHub one. */
module RemoteChoice {
  import opened Wrappers
  import opened Text
  import opened GitRemote
  import opened GitHost
  import opened Sequences

  datatype Remote = Remote(name: string, url: string)

  datatype RemoteRef = RemoteRef(name: string, owner: string, repo: string, url: string)

  function Named(remotes: seq<Remote>, name: string): (r: Option<Remote>)
    ensures r.Some? ==> r.value in remotes && r.value.name == name
    ensures r.None? ==> forall x | x in remotes :: x.name != name
  {
    if remotes == [] then None
    else if remotes[0].name == name then Some(remotes[0])
    else Named(remotes[1..], name)
  }

  function NamesOf(remotes: seq<Remote>): (names: seq<string>)
    ensures |names| == |remotes|
    ensures forall i | 0 <= i < |remotes| :: names[i] == remotes[i].name
  {
    seq(|remotes|, i requires 0 <= i < |remotes| => remotes[i].name)
  }

  function ToSeq(o: Option<string>): seq<string> {
    if o.Some? then [o.value] else []
  }

  /** The stated priority: `remote.pushDefault`, the current branch's remote unless it is the
      repository itself, `origin`, `github`, then the remotes as git lists them. */
  function Priority(remotes: seq<Remote>, pinned: Option<string>, branchRemote: Option<string>): seq<string> {
    ToSeq(pinned) + (if branchRemote == Some(".") then [] else ToSeq(branchRemote))
    + ["origin", "github"] + NamesOf(remotes)
  }

  /** One name's turn: its remote is added unless it is there already. */
  function Considered(ordered: seq<Remote>, remotes: seq<Remote>, name: string): seq<Remote> {
    var remote := Named(remotes, name);
    if remote.Some? && name !in NamesOf(ordered) then ordered + [remote.value] else ordered
  }

  function Ordered(ordered: seq<Remote>, remotes: seq<Remote>, names: seq<string>): seq<Remote>
    decreases |names|
  {
    if names == [] then ordered else Ordered(Considered(ordered, remotes, names[0]), remotes, names[1..])
  }

  lemma {:induction false} OrderedAppend(ordered: seq<Remote>, remotes: seq<Remote>, a: seq<string>, b: seq<string>)
    ensures Ordered(ordered, remotes, a + b) == Ordered(Ordered(ordered, remotes, a), remotes, b)
    decreases |a|
  {
    if a == [] {
      assert a + b == b;
    } else {
      OrderedAppend(Considered(ordered, remotes, a[0]), remotes, a[1..], b);
      HeadOfAppend(a, b);
    }
  }

  lemma OrderedOneMore(ordered: seq<Remote>, remotes: seq<Remote>, names: seq<string>, i: nat)
    requires i < |names|
    ensures Ordered(ordered, remotes, names[..i + 1]) ==
            Considered(Ordered(ordered, remotes, names[..i]), remotes, names[i])
  {
    OrderedAppend(ordered, remotes, names[..i], [names[i]]);
    assert names[..i + 1] == names[..i] + [names[i]];
    assert [names[i]][1..] == [];
  }

  method Consider(ordered: seq<Remote>, remotes: seq<Remote>, names: seq<string>) returns (r: seq<Remote>)
    ensures r == Ordered(ordered, remotes, names)
  {
    r := ordered;
    for i := 0 to |names|
      invariant r == Ordered(ordered, remotes, names[..i])
    {
      OrderedOneMore(ordered, remotes, names, i);
      var remote := Named(remotes, names[i]);
      if remote.Some? && names[i] !in NamesOf(r) {
        r := r + [remote.value];
      }
    }
    assert names[..|names|] == names;
  }

  type Parser = string -> Option<(string, string)>

  function GithubPath(url: string): Option<(string, string)> {
    Parse(url, HOST, DOT_GIT)
  }

  /** The first remote of the order whose URL the parser takes. */
  function FirstAccepted(parse: Parser, ordered: seq<Remote>): Option<RemoteRef> {
    if ordered == [] then None
    else
      match parse(ordered[0].url)
      case Some(parsed) => Some(RemoteRef(ordered[0].name, parsed.0, parsed.1, ordered[0].url))
      case None => FirstAccepted(parse, ordered[1..])
  }

  function Resolved(parse: Parser, remotes: seq<Remote>, pinned: Option<string>, branchRemote: Option<string>): Option<RemoteRef> {
    FirstAccepted(parse, Ordered([], remotes, Priority(remotes, pinned, branchRemote)))
  }

  method ResolveRemote(remotes: seq<Remote>, pinned: Option<string>, branchRemote: Option<string>)
    returns (r: Option<RemoteRef>)
    ensures r == Resolved(GithubPath, remotes, pinned, branchRemote)
  {
    if remotes == [] {
      NothingOrdered(Priority(remotes, pinned, branchRemote));
      return None;
    }
    var first := ToSeq(pinned) + if branchRemote == Some(".") then [] else ToSeq(branchRemote);
    var ordered := Consider([], remotes, first);
    ordered := Consider(ordered, remotes, ["origin", "github"]);
    ordered := Consider(ordered, remotes, NamesOf(remotes));
    OrderedAppend([], remotes, first, ["origin", "github"]);
    OrderedAppend([], remotes, first + ["origin", "github"], NamesOf(remotes));
    r := FindAccepted(ordered);
  }

  lemma {:induction false} NothingOrdered(names: seq<string>)
    ensures Ordered([], [], names) == []
    decreases |names|
  {
    if names != [] {
      NothingOrdered(names[1..]);
    }
  }

  method FindAccepted(ordered: seq<Remote>) returns (r: Option<RemoteRef>)
    ensures r == FirstAccepted(GithubPath, ordered)
  {
    for i := 0 to |ordered|
      invariant FirstAccepted(GithubPath, ordered[i..]) == FirstAccepted(GithubPath, ordered)
    {
      assert ordered[i..][0] == ordered[i] && ordered[i..][1..] == ordered[i + 1..];
      var parsed := ParseGithubRemote(ordered[i].url);
      if parsed.Some? {
        return Some(RemoteRef(ordered[i].name, parsed.value.0, parsed.value.1, ordered[i].url));
      }
    }
    r := None;
  }

  // ----- what the order is

  function Rank(names: seq<string>, name: string): nat {
    if names == [] || names[0] == name then 0 else 1 + Rank(names[1..], name)
  }

  lemma {:induction false} RankAt(names: seq<string>, i: nat)
    requires i < |names|
    ensures Rank(names, names[i]) <= i
    ensures names[i] !in names[..i] ==> Rank(names, names[i]) == i
  {
    if names[0] != names[i] {
      RankAt(names[1..], i - 1);
      assert names[..i] == [names[0]] + names[1..][..i - 1];
    } else if i > 0 {
      assert names[..i][0] == names[0];
    }
  }

  /** `ordered` are the remotes of the first `i` names: each once, by rank, and all of them. */
  ghost predicate Ranked(remotes: seq<Remote>, names: seq<string>, i: nat, ordered: seq<Remote>)
    requires i <= |names|
  {
    && (forall k | 0 <= k < |ordered| :: Named(remotes, ordered[k].name) == Some(ordered[k]))
    && (forall k | 0 <= k < |ordered| :: Rank(names, ordered[k].name) < i)
    && (forall a, b | 0 <= a < b < |ordered| :: Rank(names, ordered[a].name) < Rank(names, ordered[b].name))
    && (forall name | name in names[..i] && Named(remotes, name).Some? :: name in NamesOf(ordered))
  }

  lemma RankedStep(remotes: seq<Remote>, names: seq<string>, i: nat, ordered: seq<Remote>)
    requires i < |names| && Ranked(remotes, names, i, ordered)
    ensures Ranked(remotes, names, i + 1, Considered(ordered, remotes, names[i]))
  {
    var name, ordered' := names[i], Considered(ordered, remotes, names[i]);
    RankAt(names, i);
    assert names[..i + 1] == names[..i] + [name];
    if Named(remotes, name).Some? && name !in NamesOf(ordered) {
      assert name !in names[..i];
      assert NamesOf(ordered') == NamesOf(ordered) + [name];
    }
  }

  lemma {:induction false} OrderIsRanked(remotes: seq<Remote>, names: seq<string>, i: nat)
    requires i <= |names|
    ensures Ranked(remotes, names, i, Ordered([], remotes, names[..i]))
  {
    if i == 0 {
      assert names[..0] == [];
    } else {
      OrderIsRanked(remotes, names, i - 1);
      RankedStep(remotes, names, i - 1, Ordered([], remotes, names[..i - 1]));
      OrderedOneMore([], remotes, names, i - 1);
    }
  }

  /** The order tried: every remote's name exactly once, in the stated priority. */
  lemma TriedInPriorityOrder(remotes: seq<Remote>, pinned: Option<string>, branchRemote: Option<string>)
    ensures var priority := Priority(remotes, pinned, branchRemote);
            var tried := Ordered([], remotes, priority);
            && NoRepeats(NamesOf(tried))
            && (forall name :: name in NamesOf(tried) <==> name in NamesOf(remotes))
            && (forall remote | remote in tried :: Named(remotes, remote.name) == Some(remote))
            && (forall a, b | 0 <= a < b < |tried| :: Rank(priority, tried[a].name) < Rank(priority, tried[b].name))
  {
    var priority := Priority(remotes, pinned, branchRemote);
    var tried := Ordered([], remotes, priority);
    OrderIsRanked(remotes, priority, |priority|);
    assert priority[..|priority|] == priority;
    RankedAreTheRemotes(remotes, priority, tried);
  }

  lemma RankedAreTheRemotes(remotes: seq<Remote>, names: seq<string>, tried: seq<Remote>)
    requires Ranked(remotes, names, |names|, tried)
    requires forall name | name in NamesOf(remotes) :: name in names
    ensures NoRepeats(NamesOf(tried))
    ensures forall name :: name in NamesOf(tried) <==> name in NamesOf(remotes)
    ensures forall remote | remote in tried :: Named(remotes, remote.name) == Some(remote)
  {
    assert names[..|names|] == names;
    forall name ensures name in NamesOf(tried) <==> name in NamesOf(remotes) {
      if name in NamesOf(remotes) {
        var i :| 0 <= i < |remotes| && NamesOf(remotes)[i] == name;
        assert remotes[i] in remotes && name in names;
      }
      if name in NamesOf(tried) {
        var k :| 0 <= k < |tried| && NamesOf(tried)[k] == name;
        var i :| 0 <= i < |remotes| && remotes[i] == tried[k];
        assert NamesOf(remotes)[i] == name;
      }
    }
  }

  /** The parser takes the remote's URL. Which host that is on is for `TakenIsOnGithubIff`. */
  predicate Accepted(parse: Parser, remote: Remote) {
    parse(remote.url).Some?
  }

  predicate Reads(parse: Parser, remote: Remote, ref: RemoteRef) {
    parse(remote.url) == Some((ref.owner, ref.repo)) && ref.name == remote.name && ref.url == remote.url
  }

  lemma {:induction false} FirstAcceptedIsFirst(parse: Parser, ordered: seq<Remote>) returns (i: nat)
    ensures i <= |ordered| && forall k | 0 <= k < i :: !Accepted(parse, ordered[k])
    ensures var r := FirstAccepted(parse, ordered);
            if i == |ordered| then r.None? else r.Some? && Reads(parse, ordered[i], r.value)
  {
    if ordered == [] || Accepted(parse, ordered[0]) {
      i := 0;
    } else {
      var j := FirstAcceptedIsFirst(parse, ordered[1..]);
      i := j + 1;
      forall k | 0 <= k < i ensures !Accepted(parse, ordered[k]) {
        assert k > 0 ==> ordered[k] == ordered[1..][k - 1];
      }
    }
  }

  /** The parser takes the URL of the remote chosen and of none that comes before it; there is
      none only if it takes no remote's URL. */
  lemma ResolvedIsTheBest(parse: Parser, remotes: seq<Remote>, pinned: Option<string>, branchRemote: Option<string>,
                          name: string)
    requires Named(remotes, name).Some? && Accepted(parse, Named(remotes, name).value)
    ensures var r := Resolved(parse, remotes, pinned, branchRemote);
            var priority := Priority(remotes, pinned, branchRemote);
            && r.Some? && Named(remotes, r.value.name).Some?
            && Reads(parse, Named(remotes, r.value.name).value, r.value)
            && Rank(priority, r.value.name) <= Rank(priority, name)
  {
    var priority := Priority(remotes, pinned, branchRemote);
    var tried := Ordered([], remotes, priority);
    TriedInPriorityOrder(remotes, pinned, branchRemote);
    var i := FirstAcceptedIsFirst(parse, tried);
    var k := TriedAt(remotes, tried, name);
    assert i <= k;
    assert tried[i] in tried;
    assert i < k ==> Rank(priority, tried[i].name) < Rank(priority, tried[k].name);
  }

  lemma TriedAt(remotes: seq<Remote>, tried: seq<Remote>, name: string) returns (k: nat)
    requires Named(remotes, name).Some?
    requires forall n :: n in NamesOf(tried) <==> n in NamesOf(remotes)
    requires forall remote | remote in tried :: Named(remotes, remote.name) == Some(remote)
    ensures k < |tried| && tried[k] == Named(remotes, name).value
  {
    var j :| 0 <= j < |remotes| && remotes[j] == Named(remotes, name).value;
    assert NamesOf(remotes)[j] == name;
    assert name in NamesOf(tried);
    k :| 0 <= k < |tried| && NamesOf(tried)[k] == name;
    assert tried[k] in tried;
  }

  /** A remote whose URL the parser does not take is never chosen. */
  lemma ResolvedIsAccepted(parse: Parser, remotes: seq<Remote>, pinned: Option<string>, branchRemote: Option<string>)
    requires Resolved(parse, remotes, pinned, branchRemote).Some?
    ensures var r := Resolved(parse, remotes, pinned, branchRemote).value;
            && Named(remotes, r.name).Some? && Accepted(parse, Named(remotes, r.name).value)
            && Reads(parse, Named(remotes, r.name).value, r)
  {
    var tried := Ordered([], remotes, Priority(remotes, pinned, branchRemote));
    TriedInPriorityOrder(remotes, pinned, branchRemote);
    var i := FirstAcceptedIsFirst(parse, tried);
    assert tried[i] in tried;
  }

  /** The remote chosen is on GitHub exactly when the name stands as the host of its URL, at
      the occurrence that the pair was read behind or at a later one. */
  lemma TakenIsOnGithubIff(remotes: seq<Remote>, pinned: Option<string>, branchRemote: Option<string>)
    requires Resolved(GithubPath, remotes, pinned, branchRemote).Some?
    ensures var url := Trim(Resolved(GithubPath, remotes, pinned, branchRemote).value.url);
            && Search(url, HOST, 0).Some?
            && (HostOf(url) == HOST <==> SomeStands(url, HOST, Search(url, HOST, 0).value))
  {
    ResolvedIsAccepted(GithubPath, remotes, pinned, branchRemote);
    HostIsName();
    ParsedIsOnHostIff(Resolved(GithubPath, remotes, pinned, branchRemote).value.url, HOST, DOT_GIT);
  }

  /** The first remote of the order is chosen if the parser takes its URL. */
  lemma FirstIsTaken(parse: Parser, remotes: seq<Remote>, pinned: Option<string>, branchRemote: Option<string>, remote: Remote)
    requires Named(remotes, Priority(remotes, pinned, branchRemote)[0]) == Some(remote) && Accepted(parse, remote)
    ensures var r := Resolved(parse, remotes, pinned, branchRemote); r.Some? && Reads(parse, remote, r.value)
  {
    var names := Priority(remotes, pinned, branchRemote);
    assert Considered([], remotes, names[0]) == [remote];
    StartStays([remote], remotes, names[1..]);
  }

  lemma {:induction false} StartStays(ordered: seq<Remote>, remotes: seq<Remote>, names: seq<string>)
    requires ordered != []
    ensures Ordered(ordered, remotes, names) != [] && Ordered(ordered, remotes, names)[0] == ordered[0]
    decreases |names|
  {
    if names != [] {
      StartStays(Considered(ordered, remotes, names[0]), remotes, names[1..]);
    }
  }

  /** A checkout with its `origin` on GitLab and another remote. */
  lemma GitLabIsTaken(hub: Remote)
    ensures var lab := Remote("origin", "https://gitlab.com/github.com/o/r.git");
            && Resolved(GithubPath, [lab, hub], None, None) == Some(RemoteRef("origin", "o", "r", lab.url))
            && HostOf(Trim(lab.url)) == "gitlab.com"
  {
    GitLabTakenForGithub();
    var lab := Remote("origin", "https://gitlab.com/github.com/o/r.git");
    Alone(lab, hub);
    FirstIsTaken(GithubPath, [lab, hub], None, None, lab);
  }

  lemma Alone(first: Remote, other: Remote)
    requires first.name == "origin"
    ensures Named([first, other], Priority([first, other], None, None)[0]) == Some(first)
  {
    assert Priority([first, other], None, None)[0] == "origin";
  }

  // ----- the priority, in words

  /** The remote that pushes go to comes first, then that of the current branch unless it is the
      repository itself, then `origin`, then `github`, then any other. */
  lemma PriorityIs(remotes: seq<Remote>, pinned: Option<string>, branchRemote: Option<string>, other: string)
    requires other != "origin" && other != "github" && Some(other) != pinned && Some(other) != branchRemote
    ensures var names := Priority(remotes, pinned, branchRemote);
            var branch := branchRemote.Some? && branchRemote.value != ".";
            var front := (if pinned.Some? then 1 else 0) + (if branch then 1 else 0);
            && (pinned.Some? ==> Rank(names, pinned.value) == 0)
            && (branch ==> Rank(names, branchRemote.value) <= if pinned.Some? then 1 else 0)
            && Rank(names, "origin") <= front && Rank(names, "github") <= front + 1
            && Rank(names, other) >= front + 2
            && (pinned != Some("github") && branchRemote != Some("github") ==> Rank(names, "origin") < Rank(names, "github"))
  {
    var names := Priority(remotes, pinned, branchRemote);
    var branch := branchRemote.Some? && branchRemote.value != ".";
    var front := (if pinned.Some? then 1 else 0) + (if branch then 1 else 0);
    assert names[front] == "origin" && names[front + 1] == "github";
    RankAt(names, front);
    RankAt(names, front + 1);
    if branch {
      RankAt(names, front - 1);
    }
    NotAmong(names, other, front + 2);
    if pinned != Some("github") && branchRemote != Some("github") {
      assert |"origin"| != 5;
      NotAmong(names, "github", front + 1);
    }
  }

  lemma {:induction false} NotAmong(names: seq<string>, name: string, n: nat)
    requires n <= |names| && forall i | 0 <= i < n :: names[i] != name
    ensures Rank(names, name) >= n
  {
    if n > 0 {
      assert names[0] != name;
      NotAmong(names[1..], name, n - 1);
    }
  }
}
