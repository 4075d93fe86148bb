/** Which GitHub repository a checkout belongs to. */
module GitRemote {
  import opened Wrappers
  import opened Text

  const HOST := "github.com"
  const DOT_GIT := ".git"

  predicate IsSeparator(c: char) {
    c == ':' || c == '/'
  }

  // ----- finding the host

  /** An occurrence of the host that is not part of a longer name. */
  predicate Bounded(url: string, host: string, i: nat) {
    && OccursAt(url, host, i)
    && (i == 0 || IsSeparator(url[i - 1]) || url[i - 1] == '@')
    && i + |host| < |url| && IsSeparator(url[i + |host|])
  }

  /** The search of the source: a failing occurrence is skipped as a whole. */
  function Search(url: string, host: string, from: nat): (r: Option<nat>)
    requires host != ""
    ensures r.Some? ==> r.value + |host| <= |url|
    decreases |url| - from
  {
    match FindFrom(url, host, from)
    case None => None
    case Some(found) => if Bounded(url, host, found) then Some(found) else Search(url, host, found + |host|)
  }

  /** Skipping a whole occurrence misses nothing: the search finds the first bounded one. */
  lemma {:induction false} SearchMissesNothing(url: string, host: string, from: nat)
    requires Unrepeated(host)
    ensures var r := Search(url, host, from);
            && (r.Some? ==> from <= r.value && Bounded(url, host, r.value))
            && forall i: nat | from <= i && (r.Some? ==> i < r.value) :: !Bounded(url, host, i)
    decreases |url| - from
  {
    var r, found := Search(url, host, from), FindFrom(url, host, from);
    NoneBoundedBefore(url, host, from);
    if found.Some? && !Bounded(url, host, found.value) {
      var next := found.value + |host|;
      assert r == Search(url, host, next);
      NoneBoundedInside(url, host, from);
      SearchMissesNothing(url, host, next);
      forall i: nat | from <= i && (r.Some? ==> i < r.value) ensures !Bounded(url, host, i) {
        if i < found.value {
        } else if i == found.value {
        } else if i < next {
        } else {
        }
      }
    }
  }

  lemma NoneBoundedBefore(url: string, host: string, from: nat)
    ensures var found := FindFrom(url, host, from);
            forall i: nat | from <= i && (found.Some? ==> i < found.value) :: !Bounded(url, host, i)
  {
    FindsFirst(url, host, from);
  }

  lemma NoneBoundedInside(url: string, host: string, from: nat)
    requires Unrepeated(host) && FindFrom(url, host, from).Some?
    ensures var found := FindFrom(url, host, from).value;
            forall i | found < i < found + |host| :: !Bounded(url, host, i)
  {
    FindsFirst(url, host, from);
    var found := FindFrom(url, host, from).value;
    forall i | found < i < found + |host| ensures !OccursAt(url, host, i) {
      if OccursAt(url, host, i) {
        NoOverlap(url, host, found, i);
      }
    }
  }

  // ----- owner and repository

  function TrimSeparators(s: string): string {
    if s != "" && IsSeparator(s[0]) then TrimSeparators(s[1..]) else s
  }

  function WithoutSuffix(s: string, suffix: string): string {
    if EndsWith(s, suffix) then s[..|s| - |suffix|] else s
  }

  /** `rest` is what stands behind the host. */
  function OwnerAndRepo(rest: string, extension: string): Option<(string, string)> {
    var path := WithoutSuffix(TrimSlashes(TrimSeparators(rest)), extension);
    match FindFrom(path, "/", 0)
    case None => None
    case Some(slash) =>
      var owner, repo := path[..slash], path[slash + 1..];
      if owner == "" || repo == "" || '/' in repo then None else Some((owner, repo))
  }

  function Parse(url: string, host: string, extension: string): Option<(string, string)>
    requires host != ""
  {
    var trimmed := Trim(url);
    match Search(trimmed, host, 0)
    case None => None
    case Some(i) => OwnerAndRepo(trimmed[i + |host|..], extension)
  }

  method ParseGithubRemote(url: string) returns (r: Option<(string, string)>)
    ensures r == Parse(url, HOST, DOT_GIT)
  {
    r := ParseRemote(url, HOST, DOT_GIT);
  }

  method ParseRemote(url: string, host: string, extension: string) returns (r: Option<(string, string)>)
    requires host != ""
    ensures r == Parse(url, host, extension)
  {
    var trimmed := Trim(url);
    var index := FindHost(trimmed, host);
    if index.None? {
      return None;
    }
    r := OwnerAndRepo(trimmed[index.value + |host|..], extension);
  }

  method FindHost(url: string, host: string) returns (index: Option<nat>)
    requires host != ""
    ensures index == Search(url, host, 0)
  {
    var from: nat := 0;
    while true
      invariant from <= |url|
      invariant Search(url, host, from) == Search(url, host, 0)
      decreases |url| - from
    {
      var found := FindFrom(url, host, from);
      if found.None? {
        return None;
      }
      if Bounded(url, host, found.value) {
        return Some(found.value);
      }
      from := found.value + |host|;
    }
  }

  // ----- printing and parsing

  /** What a repository's owner and name have to be to survive in a URL. */
  predicate Legal(owner: string, repo: string) {
    owner != "" && '/' !in owner && owner[0] != ':' && repo != "" && '/' !in repo
  }

  /** Whatever is parsed is legal, so the condition below is also necessary. */
  lemma ParsedIsLegal(url: string, host: string, extension: string)
    requires host != "" && Parse(url, host, extension).Some?
    ensures var parsed := Parse(url, host, extension).value; Legal(parsed.0, parsed.1)
  {
    var trimmed := Trim(url);
    OwnerAndRepoAreLegal(trimmed[Search(trimmed, host, 0).value + |host|..], extension);
  }

  lemma OwnerAndRepoAreLegal(rest: string, extension: string)
    requires OwnerAndRepo(rest, extension).Some?
    ensures var parsed := OwnerAndRepo(rest, extension).value; Legal(parsed.0, parsed.1)
  {
    var a := TrimSeparators(rest);
    SeparatorsGone(rest);
    SlashesGone(a);
    var path := WithoutSuffix(TrimSlashes(a), extension);
    NoSlashBefore(path);
    assert path[0] == a[0];
  }

  lemma NoSlashBefore(path: string)
    requires FindFrom(path, "/", 0).Some?
    ensures '/' !in path[..FindFrom(path, "/", 0).value]
  {
    FindsFirst(path, "/", 0);
    var owner := path[..FindFrom(path, "/", 0).value];
    forall i | 0 <= i < |owner| ensures owner[i] != '/' {
      assert !OccursAt(path, "/", i);
      assert path[i..i + 1] == [path[i]];
    }
  }

  lemma {:induction false} SeparatorsGone(s: string)
    ensures TrimSeparators(s) != "" ==> !IsSeparator(TrimSeparators(s)[0])
  {
    if s != "" && IsSeparator(s[0]) {
      SeparatorsGone(s[1..]);
    }
  }

  lemma {:induction false} SlashesGone(s: string)
    ensures TrimSlashes(s) <= s
    ensures TrimSlashes(s) != "" ==> TrimSlashes(s)[|TrimSlashes(s)| - 1] != '/'
  {
    if s != "" && s[|s| - 1] == '/' {
      SlashesGone(s[..|s| - 1]);
    }
  }

  lemma {:induction false} TrimmedSeparators(front: string, rest: string)
    requires forall c | c in front :: IsSeparator(c)
    ensures TrimSeparators(front + rest) == TrimSeparators(rest)
  {
    if front == "" {
      assert front + rest == rest;
    } else {
      assert front[0] in front;
      TrimmedSeparators(front[1..], rest);
      assert (front + rest)[1..] == front[1..] + rest;
    }
  }

  lemma {:induction false} TrimSlashesOf(s: string, slashes: string)
    requires forall c | c in slashes :: c == '/'
    requires s != "" && s[|s| - 1] != '/'
    ensures TrimSlashes(s + slashes) == s
    decreases |slashes|
  {
    if slashes == "" {
      assert s + slashes == s;
    } else {
      var n := |slashes| - 1;
      assert slashes[n] in slashes;
      assert forall c | c in slashes[..n] :: c in slashes;
      TrimSlashesOf(s, slashes[..n]);
      assert (s + slashes)[..|s| + n] == s + slashes[..n];
    }
  }

  /** The ways a URL of the repository is written: any lead-in that ends in a boundary and
      does not mention the host, then `host`, `:` or `/`, the path, the extension or not,
      and any number of slashes. */
  function Printed(lead: string, host: string, separators: string, owner: string, repo: string,
                   ext: string, slashes: string): string {
    lead + host + (separators + (owner + "/" + repo + ext + slashes))
  }

  ghost predicate Leads(lead: string, host: string) {
    && !Holds(lead, host)
    && (lead == "" || (!IsSpace(lead[0]) && (IsSeparator(lead[|lead| - 1]) || lead[|lead| - 1] == '@')))
  }

  /** Without the extension a name must not end in it, nor, at the end of the text, in space. */
  predicate Writable(repo: string, extension: string, ext: string, slashes: string) {
    || ext == extension
    || (ext == "" && !EndsWith(repo, extension) && (slashes != "" || (repo != "" && !IsSpace(repo[|repo| - 1]))))
  }

  ghost predicate IsExtension(extension: string) {
    extension != "" && '/' !in extension && !IsSpace(extension[|extension| - 1])
  }

  lemma PathReadsBack(owner: string, repo: string, extension: string, ext: string)
    requires Legal(owner, repo) && IsExtension(extension)
    requires ext == extension || (ext == "" && !EndsWith(repo, extension))
    ensures WithoutSuffix(owner + "/" + repo + ext, extension) == owner + "/" + repo
  {
    var path := owner + "/" + repo;
    if ext == extension {
      assert (path + ext)[|path|..] == ext && (path + ext)[..|path|] == path;
    } else {
      assert path + ext == path;
      if |extension| <= |repo| {
        assert path[|path| - |extension|..] == repo[|repo| - |extension|..];
      } else if |extension| <= |path| {
        var k := |owner| - (|path| - |extension|);
        assert path[|path| - |extension|..][k] == path[|owner|] == '/';
        assert extension[k] in extension;
      }
    }
  }

  lemma OwnerAndRepoReadBack(separators: string, owner: string, repo: string, extension: string, ext: string, slashes: string)
    requires Legal(owner, repo) && IsExtension(extension)
    requires ext == extension || (ext == "" && !EndsWith(repo, extension))
    requires forall c | c in separators :: IsSeparator(c)
    requires forall c | c in slashes :: c == '/'
    ensures OwnerAndRepo(separators + (owner + "/" + repo + ext + slashes), extension) == Some((owner, repo))
  {
    var path := owner + "/" + repo;
    var printed := path + ext;
    assert owner[0] in owner && (printed + slashes)[0] == owner[0];
    TrimmedSeparators(separators, printed + slashes);
    assert repo[|repo| - 1] in repo;
    assert ext != "" ==> ext[|ext| - 1] in ext;
    assert printed[|printed| - 1] == if ext == "" then repo[|repo| - 1] else ext[|ext| - 1];
    TrimSlashesOf(printed, slashes);
    PathReadsBack(owner, repo, extension, ext);
    FirstSlashSplits(owner, repo);
  }

  lemma FirstSlashSplits(owner: string, repo: string)
    requires '/' !in owner
    ensures var path := owner + "/" + repo;
            FindFrom(path, "/", 0) == Some(|owner|) && path[..|owner|] == owner && path[|owner| + 1..] == repo
  {
    FindsFirst(owner, "/", 0);
    forall i: nat | i < |owner| ensures !OccursAt(owner, "/", i) {
      assert owner[i..i + 1][0] == owner[i];
    }
    PrintedIsFound(owner, "/", repo);
  }

  lemma FoundBehindLead(lead: string, host: string, rest: string)
    requires Unrepeated(host) && Leads(lead, host) && rest != "" && IsSeparator(rest[0])
    ensures Search(lead + host + rest, host, 0) == Some(|lead|)
    ensures (lead + host + rest)[|lead| + |host|..] == rest
  {
    var url := lead + host + rest;
    PrintedIsFound(lead, host, rest);
    FindsFirst(url, host, 0);
    assert url[|lead| + |host|] == rest[0];
    assert Bounded(url, host, |lead|);
  }

  /** Parsing gives back what was printed. */
  lemma ParseInvertsPrinting(lead: string, host: string, separators: string, owner: string, repo: string,
                             extension: string, ext: string, slashes: string)
    requires Unrepeated(host) && !IsSpace(host[0]) && IsExtension(extension) && Leads(lead, host)
    requires separators != "" && forall c | c in separators :: IsSeparator(c)
    requires forall c | c in slashes :: c == '/'
    requires Legal(owner, repo) && Writable(repo, extension, ext, slashes)
    ensures Parse(Printed(lead, host, separators, owner, repo, ext, slashes), host, extension) == Some((owner, repo))
  {
    var rest := separators + (owner + "/" + repo + ext + slashes);
    assert separators[0] in separators && rest[0] == separators[0];
    FoundBehindLead(lead, host, rest);
    PrintedIsTrimmed(lead, host, separators, owner, repo, extension, ext, slashes);
    OwnerAndRepoReadBack(separators, owner, repo, extension, ext, slashes);
  }

  lemma PrintedIsTrimmed(lead: string, host: string, separators: string, owner: string, repo: string,
                         extension: string, ext: string, slashes: string)
    requires host != "" && !IsSpace(host[0]) && IsExtension(extension) && Leads(lead, host)
    requires forall c | c in slashes :: c == '/'
    requires Legal(owner, repo)
    requires ext == extension || (ext == "" && (slashes != "" || !IsSpace(repo[|repo| - 1])))
    ensures var url := Printed(lead, host, separators, owner, repo, ext, slashes); Trim(url) == url
  {
    var url := Printed(lead, host, separators, owner, repo, ext, slashes);
    assert url[0] == if lead == "" then host[0] else lead[0];
    var last := url[|url| - 1];
    if slashes != "" {
      assert last == slashes[|slashes| - 1] && slashes[|slashes| - 1] in slashes;
    } else if ext != "" {
      assert last == ext[|ext| - 1];
    } else {
      assert last == repo[|repo| - 1];
    }
    TrimFixes(url);
  }

  lemma HostIsUsable()
    ensures Unrepeated(HOST) && !IsSpace(HOST[0]) && IsExtension(DOT_GIT)
  {
    assert forall i | 0 <= i < |HOST[1..]| :: HOST[1..][i] != 'g';
    assert forall i | 0 <= i < |DOT_GIT| :: DOT_GIT[i] != '/';
  }

  // ----- what does not read back

  lemma ReadIsAsLong(rest: string, extension: string)
    requires OwnerAndRepo(rest, extension).Some?
    ensures var parsed := OwnerAndRepo(rest, extension).value;
            |parsed.0| + 1 + |parsed.1| == |WithoutSuffix(TrimSlashes(TrimSeparators(rest)), extension)|
  {
  }

  lemma {:induction false} NoLonger(s: string)
    ensures |TrimSeparators(s)| <= |s|
    decreases |s|
  {
    if s != "" && IsSeparator(s[0]) {
      NoLonger(s[1..]);
    }
  }

  /** The extension is taken off the name. */
  lemma ExtensionIsLost(lead: string, host: string, separators: string, owner: string, repo: string,
                        extension: string, slashes: string)
    requires Unrepeated(host) && !IsSpace(host[0]) && IsExtension(extension) && Leads(lead, host)
    requires separators != "" && forall c | c in separators :: IsSeparator(c)
    requires forall c | c in slashes :: c == '/'
    requires Legal(owner, repo) && EndsWith(repo, extension)
    ensures Parse(Printed(lead, host, separators, owner, repo, "", slashes), host, extension) != Some((owner, repo))
  {
    var rest := separators + (owner + "/" + repo + "" + slashes);
    assert repo[|repo| - 1] == repo[|repo| - |extension|..][|extension| - 1];
    PrintedIsTrimmed(lead, host, separators, owner, repo, extension, "", slashes);
    assert separators[0] in separators && rest[0] == separators[0];
    FoundBehindLead(lead, host, rest);
    ExtensionIsTakenOff(separators, owner, repo, extension, slashes);
  }

  lemma ExtensionIsTakenOff(separators: string, owner: string, repo: string, extension: string, slashes: string)
    requires forall c | c in separators :: IsSeparator(c)
    requires forall c | c in slashes :: c == '/'
    requires Legal(owner, repo) && extension != "" && EndsWith(repo, extension)
    ensures OwnerAndRepo(separators + (owner + "/" + repo + "" + slashes), extension) != Some((owner, repo))
  {
    var path := owner + "/" + repo;
    var rest := separators + (path + "" + slashes);
    assert owner[0] in owner && (path + "" + slashes)[0] == owner[0];
    TrimmedSeparators(separators, path + "" + slashes);
    assert repo[|repo| - 1] in repo && path[|path| - 1] == repo[|repo| - 1] && path + "" == path;
    TrimSlashesOf(path, slashes);
    assert path[|path| - |extension|..] == repo[|repo| - |extension|..];
    if OwnerAndRepo(rest, extension).Some? {
      ReadIsAsLong(rest, extension);
    }
  }

  lemma {:induction false} TrimEndIsFront(s: string, n: nat)
    requires n < |s| && IsSpace(s[|s| - 1]) && (n > 0 ==> !IsSpace(s[n - 1]))
    ensures n <= |TrimEnd(s)| < |s| && TrimEnd(s) == s[..|TrimEnd(s)|]
    decreases |s|
  {
    var front := s[..|s| - 1];
    if |front| > n && IsSpace(front[|front| - 1]) {
      TrimEndIsFront(front, n);
    } else {
      assert TrimEnd(front) == front;
    }
  }

  /** The space at the end of the text is trimmed off the name. */
  lemma SpaceIsLost(lead: string, host: string, separators: string, owner: string, repo: string, extension: string)
    requires Unrepeated(host) && !IsSpace(host[0]) && Leads(lead, host)
    requires separators != "" && forall c | c in separators :: IsSeparator(c)
    requires Legal(owner, repo) && IsSpace(repo[|repo| - 1])
    ensures Parse(Printed(lead, host, separators, owner, repo, "", ""), host, extension) != Some((owner, repo))
  {
    var path := owner + "/" + repo + "" + "";
    assert path == owner + "/" + repo;
    var url := lead + host + (separators + path);
    assert url[0] == if lead == "" then host[0] else lead[0];
    assert TrimStart(url) == url;
    var n := |lead| + |host| + |separators|;
    assert separators[|separators| - 1] in separators && url[n - 1] == separators[|separators| - 1];
    TrimEndIsFront(url, n);
    var u := Trim(url);
    var rest := separators + path[..|u| - n];
    assert u == lead + host + rest;
    assert separators[0] in separators && rest[0] == separators[0];
    FoundBehindLead(lead, host, rest);
    TrimmedSeparators(separators, path[..|u| - n]);
    NoLonger(path[..|u| - n]);
    SlashesGone(TrimSeparators(rest));
    if OwnerAndRepo(rest, extension).Some? {
      ReadIsAsLong(rest, extension);
    }
  }

  /** With `.git` or without, slashes or none: read back exactly when owner and name are legal
      and, without `.git`, the name could be written so. */
  lemma GithubUrlReadsBackIff(lead: string, separators: string, owner: string, repo: string, ext: string, slashes: string)
    requires Leads(lead, HOST) && separators != "" && forall c | c in separators :: IsSeparator(c)
    requires ext == DOT_GIT || ext == ""
    requires forall c | c in slashes :: c == '/'
    ensures Parse(Printed(lead, HOST, separators, owner, repo, ext, slashes), HOST, DOT_GIT) == Some((owner, repo))
            <==> Legal(owner, repo) && Writable(repo, DOT_GIT, ext, slashes)
  {
    HostIsUsable();
    ReadsBackIff(lead, HOST, separators, owner, repo, DOT_GIT, ext, slashes);
  }

  lemma ReadsBackIff(lead: string, host: string, separators: string, owner: string, repo: string,
                     extension: string, ext: string, slashes: string)
    requires Unrepeated(host) && !IsSpace(host[0]) && IsExtension(extension) && Leads(lead, host)
    requires separators != "" && forall c | c in separators :: IsSeparator(c)
    requires forall c | c in slashes :: c == '/'
    requires ext == extension || ext == ""
    ensures Parse(Printed(lead, host, separators, owner, repo, ext, slashes), host, extension) == Some((owner, repo))
            <==> Legal(owner, repo) && Writable(repo, extension, ext, slashes)
  {
    if !Legal(owner, repo) {
      var url := Printed(lead, host, separators, owner, repo, ext, slashes);
      if Parse(url, host, extension) == Some((owner, repo)) {
        ParsedIsLegal(url, host, extension);
      }
    } else if Writable(repo, extension, ext, slashes) {
      ParseInvertsPrinting(lead, host, separators, owner, repo, extension, ext, slashes);
    } else if EndsWith(repo, extension) {
      ExtensionIsLost(lead, host, separators, owner, repo, extension, slashes);
    } else {
      SpaceIsLost(lead, host, separators, owner, repo, extension);
    }
  }

  /** A URL parses only if the host stands in it between boundaries. */
  lemma LookalikesAreRefused(url: string)
    requires forall i: nat :: !Bounded(Trim(url), HOST, i)
    ensures Parse(url, HOST, DOT_GIT).None?
  {
    HostIsUsable();
    SearchMissesNothing(Trim(url), HOST, 0);
  }

  // ----- the usual forms

  lemma LeadOf(lead: string, whole: string)
    requires lead in {"https://", "ssh://git@", "git://", "git@", ""}
    ensures Leads(lead, "github.com")
  {
    FindsFirst(lead, "github.com", 0);
    forall i: nat ensures !OccursAt(lead, "github.com", i) {
      if i + 10 <= |lead| {
        assert lead == "ssh://git@" && lead[i..i + 10][0] == 's';
      }
    }
  }

  /** The addresses that GitHub itself gives out for a repository. */
  lemma UsualFormsRead(owner: string, repo: string)
    requires Legal(owner, repo)
    ensures Parse("git@" + "github.com" + (":" + (owner + "/" + repo + ".git" + "")), HOST, DOT_GIT) == Some((owner, repo))
    ensures Parse("https://" + "github.com" + ("/" + (owner + "/" + repo + ".git" + "")), HOST, DOT_GIT) == Some((owner, repo))
    ensures Parse("ssh://git@" + "github.com" + ("/" + (owner + "/" + repo + ".git" + "")), HOST, DOT_GIT) == Some((owner, repo))
    ensures Parse("git://" + "github.com" + ("/" + (owner + "/" + repo + ".git" + "")), HOST, DOT_GIT) == Some((owner, repo))
    ensures Parse("" + "github.com" + ("/" + (owner + "/" + repo + ".git" + "")), HOST, DOT_GIT) == Some((owner, repo))
  {
    Reads("git@", ":", owner, repo);
    Reads("https://", "/", owner, repo);
    Reads("ssh://git@", "/", owner, repo);
    Reads("git://", "/", owner, repo);
    Reads("", "/", owner, repo);
  }

  lemma Reads(lead: string, separator: string, owner: string, repo: string)
    requires lead in {"https://", "ssh://git@", "git://", "git@", ""} && (separator == ":" || separator == "/") && Legal(owner, repo)
    ensures Parse(lead + HOST + (separator + (owner + "/" + repo + DOT_GIT + "")), HOST, DOT_GIT) == Some((owner, repo))
  {
    LeadOf(lead, HOST);
    GithubUrlReadsBackIff(lead, separator, owner, repo, DOT_GIT, "");
  }
}
