/**
 The host a remote's URL names, read by where hosts stand in URLs, and when the search for
 the host's name finds that place.
 */
module GitHost {
  import opened Wrappers
  import opened Text
  import opened GitRemote
  import opened Sequences

  const SCHEME_END := "://"

  /** The first index at or after `from` that holds one of the characters, or the end. */
  function FirstOf(u: string, stops: set<char>, from: nat): (r: nat)
    requires from <= |u|
    ensures from <= r <= |u|
    ensures forall i | from <= i < r :: u[i] !in stops
    ensures r < |u| ==> u[r] in stops
    decreases |u| - from
  {
    if from == |u| || u[from] in stops then from else FirstOf(u, stops, from + 1)
  }

  /** Just behind the last `@` of `u[start..end]`, or its start. */
  function BehindUser(u: string, start: nat, end: nat): (r: nat)
    requires start <= end <= |u|
    ensures start <= r <= end
    ensures r == start || u[r - 1] == '@'
    ensures forall i | r <= i < end :: u[i] != '@'
  {
    if start == end || u[end - 1] == '@' then end else BehindUser(u, start, end - 1)
  }

  /** Where user, host and port stand: behind `scheme://` up to the next slash, or, without a
      scheme, up to the first colon or slash. */
  function Authority(u: string): (r: (nat, nat))
    ensures r.0 <= r.1 <= |u|
    ensures r.0 == 0 || u[r.0 - 1] == '/'
    ensures forall i | r.0 <= i < r.1 :: u[i] != '/'
    ensures r.1 < |u| ==> IsSeparator(u[r.1])
  {
    var k := FirstOf(u, {':', '/', '@'}, 0);
    if OccursAt(u, SCHEME_END, k) then
      assert u[k..k + 3][2] == u[k + 2];
      (k + 3, FirstOf(u, {'/'}, k + 3))
    else (0, FirstOf(u, {':', '/'}, 0))
  }

  function HostStart(u: string): (r: nat)
    ensures Authority(u).0 <= r <= Authority(u).1
  {
    BehindUser(u, Authority(u).0, Authority(u).1)
  }

  /** The port, if any, is not part of the host. */
  function HostEnd(u: string): (r: nat)
    ensures HostStart(u) <= r <= Authority(u).1
  {
    var colon := FirstOf(u, {':'}, HostStart(u));
    if colon < Authority(u).1 then colon else Authority(u).1
  }

  function HostOf(u: string): string {
    u[HostStart(u)..HostEnd(u)]
  }

  // ----- the reading is the right one

  predicate Lacks(s: string, chars: set<char>) {
    forall c | c in s :: c !in chars
  }

  lemma HostBehindScheme(u: string, k: nat, h: nat, c: nat, e: nat)
    requires OccursAt(u, SCHEME_END, k) && k + 3 <= h <= c <= e <= |u|
    requires forall i | 0 <= i < k :: u[i] !in {':', '/', '@'}
    requires forall i | k + 3 <= i < e :: u[i] != '/'
    requires e < |u| ==> u[e] == '/'
    requires h == k + 3 || u[h - 1] == '@'
    requires forall i | h <= i < e :: u[i] != '@'
    requires forall i | h <= i < c :: u[i] != ':'
    requires c == e || u[c] == ':'
    ensures HostOf(u) == u[h..c]
  {
    assert u[k..k + 3][0] == u[k];
    assert Authority(u) == (k + 3, e);
    assert HostStart(u) == h;
  }

  lemma SchemeEndsAtColon(u: string, k: nat)
    ensures OccursAt(u, SCHEME_END, k) ==> u[k] == ':' && StartsWith(u[k + 1..], "//")
  {
    if OccursAt(u, SCHEME_END, k) {
      assert u[k] == u[k..k + 3][0] && u[k + 1..][..2] == u[k..k + 3][1..];
    }
  }

  lemma CharactersOf(u: string, start: nat, end: nat)
    requires start <= end <= |u|
    ensures forall i | start <= i < end :: u[i] in u[start..end]
  {
    assert forall i | start <= i < end :: u[i] == u[start..end][i - start];
  }

  lemma HostInFront(u: string, h: nat, e: nat)
    requires h <= e <= |u| && (e < |u| ==> IsSeparator(u[e]))
    requires h == 0 ==> !OccursAt(u, SCHEME_END, e)
    requires h == 0 || u[h - 1] == '@'
    requires forall i | 0 <= i < e :: !IsSeparator(u[i])
    requires forall i | h <= i < e :: u[i] != '@'
    ensures HostOf(u) == u[h..e]
  {
    var k := FirstOf(u, {':', '/', '@'}, 0);
    assert k <= e && (h > 0 ==> k < h);
    SchemeEndsAtColon(u, k);
    assert Authority(u) == (0, e);
    assert HostStart(u) == h;
  }

  function Url(scheme: string, user: string, host: string, port: string, path: string): string {
    scheme + "://" + user + host + port + "/" + path
  }

  predicate Printable(scheme: string, user: string, other: string, port: string) {
    && Lacks(scheme, {':', '/', '@'}) && Lacks(other, {':', '/', '@'})
    && Lacks(user, {'/'}) && (user == "" || user[|user| - 1] == '@')
    && Lacks(port, {'/', '@'}) && (port == "" || port[0] == ':')
  }

  /** A text has these parts in a row, with the delimiters between them. */
  predicate HasParts(u: string, scheme: string, user: string, other: string, port: string, path: string) {
    var k := |scheme|;
    var h := k + 3 + |user|;
    var c := h + |other|;
    var e := c + |port|;
    && e < |u| && u[k] == ':' && u[k + 1] == '/' && u[k + 2] == '/' && u[e] == '/'
    && (h == k + 3 || u[h - 1] == '@') && IsSeparator(u[c])
    && u[..k] == scheme && u[k + 3..h] == user && u[h..c] == other
    && u[c..e] == port && u[e + 1..] == path
  }

  lemma PrintedParts(scheme: string, user: string, other: string, port: string, path: string)
    requires Printable(scheme, user, other, port)
    ensures HasParts(Url(scheme, user, other, port, path), scheme, user, other, port, path)
  {
    var u, front := Url(scheme, user, other, port, path), scheme + "://" + user + other;
    InTwo(front, port, path);
    FrontParts(u, scheme, user, other, port + "/" + path);
    BackParts(u, front, port, path);
  }

  lemma InTwo(front: string, port: string, path: string)
    ensures front + port + "/" + path == front + (port + "/" + path)
  {
  }

  lemma FrontParts(u: string, scheme: string, user: string, other: string, rest: string)
    requires u == scheme + "://" + user + other + rest
    ensures var k := |scheme|;
            var h := k + 3 + |user|;
            && u[k] == ':' && u[k + 1] == '/' && u[k + 2] == '/'
            && (user != "" ==> u[h - 1] == user[|user| - 1])
            && u[..k] == scheme && u[k + 3..h] == user && u[h..h + |other|] == other
  {
  }

  lemma BackParts(u: string, front: string, port: string, path: string)
    requires u == front + (port + "/" + path)
    ensures var c := |front|;
            var e := c + |port|;
            && u[c..e] == port && u[e] == '/' && u[e + 1..] == path
            && u[c] == if port == "" then '/' else port[0]
  {
  }

  /** What is printed as the host of a URL with a scheme is what is read: user and port are
      left aside, and the path is not looked at. */
  lemma UrlHost(scheme: string, user: string, host: string, port: string, path: string)
    requires Printable(scheme, user, host, port)
    ensures HostOf(Url(scheme, user, host, port, path)) == host
  {
    PrintedParts(scheme, user, host, port, path);
    var h := |scheme| + 3 + |user|;
    var c := h + |host|;
    HostAt(Url(scheme, user, host, port, path), |scheme|, h, c, c + |port|, scheme, user, host, port);
  }

  lemma HostAt(u: string, k: nat, h: nat, c: nat, e: nat, scheme: string, user: string, host: string, port: string)
    requires Printable(scheme, user, host, port)
    requires k + 3 <= h <= c <= e < |u| && u[k] == ':' && u[k + 1] == '/' && u[k + 2] == '/' && u[e] == '/'
    requires h == k + 3 || u[h - 1] == '@'
    requires u[..k] == scheme && u[k + 3..h] == user && u[h..c] == host && u[c..e] == port
    ensures HostOf(u) == host
  {
    assert u[0..k] == u[..k] && (c < e ==> u[c] == u[c..e][0]);
    HostByIndex(u, k, h, c, e);
  }


  lemma HostByIndex(u: string, k: nat, h: nat, c: nat, e: nat)
    requires k + 3 <= h <= c <= e < |u| && u[k] == ':' && u[k + 1] == '/' && u[k + 2] == '/' && u[e] == '/'
    requires h == k + 3 || u[h - 1] == '@'
    requires Lacks(u[0..k], {':', '/', '@'}) && Lacks(u[k + 3..h], {'/'})
    requires Lacks(u[h..c], {':', '/', '@'}) && Lacks(u[c..e], {'/', '@'}) && (c < e ==> u[c] == ':')
    ensures HostOf(u) == u[h..c]
  {
    assert u[k..k + 3] == "://";
    LacksAt(u, 0, k, {':', '/', '@'});
    LacksAt(u, k + 3, h, {'/'});
    LacksAt(u, h, c, {':', '/', '@'});
    LacksAt(u, c, e, {'/', '@'});
    HostBehindScheme(u, k, h, c, e);
  }

  lemma LacksAt(u: string, start: nat, end: nat, chars: set<char>)
    requires start <= end <= |u| && Lacks(u[start..end], chars)
    ensures forall i | start <= i < end :: u[i] !in chars
  {
    CharactersOf(u, start, end);
  }

  /** The same without a scheme, before the first colon or slash. */
  lemma ScpHost(user: string, host: string, separator: char, path: string)
    requires Lacks(host, {':', '/', '@'}) && IsSeparator(separator)
    requires Lacks(user, {':', '/'}) && (user == "" || user[|user| - 1] == '@')
    requires user == "" && separator == ':' ==> !StartsWith(path, "//")
    ensures HostOf(user + host + [separator] + path) == host
  {
    var u := user + host + [separator] + path;
    var h := |user|;
    var e := h + |host|;
    assert u[0..h] == user && u[h..e] == host && u[e] == separator && u[e + 1..] == path;
    CharactersOf(u, 0, h);
    CharactersOf(u, h, e);
    SchemeEndsAtColon(u, e);
    HostInFront(u, h, e);
  }

  // ----- the search and the host

  /** An index that a caller would call the host's place: in the authority, with no user
      before it that does not end there and none behind it. */
  predicate StandsAsHost(u: string, i: nat) {
    var a := Authority(u);
    && a.0 <= i < a.1
    && (i == a.0 || u[i - 1] == '@')
    && '@' !in u[i..a.1]
  }

  lemma StandsAtTheStart(u: string, i: nat)
    requires StandsAsHost(u, i)
    ensures i == HostStart(u)
  {
    CharactersOf(u, i, Authority(u).1);
  }

  lemma StartStands(u: string)
    requires HostStart(u) < Authority(u).1
    ensures StandsAsHost(u, HostStart(u))
  {
    var a, h := Authority(u), HostStart(u);
    forall c | c in u[h..a.1] ensures c != '@' {
      var j :| 0 <= j < |u[h..a.1]| && u[h..a.1][j] == c;
      assert c == u[h + j];
    }
  }

  predicate IsName(host: string) {
    host != "" && Lacks(host, {':', '/', '@'})
  }

  lemma NameHasNoDelimiter(u: string, host: string, i: nat)
    requires IsName(host) && OccursAt(u, host, i)
    ensures forall j | i <= j < i + |host| :: u[j] !in {':', '/', '@'}
  {
    forall j | i <= j < i + |host| ensures u[j] !in {':', '/', '@'} {
      assert u[j] == u[i..i + |host|][j - i] == host[j - i];
    }
  }

  /** An occurrence between boundaries is the URL's host exactly when it stands as one. */
  lemma BoundedIsHostIff(u: string, host: string, i: nat)
    requires IsName(host) && Bounded(u, host, i)
    ensures StandsAsHost(u, i) <==> i == HostStart(u)
    ensures StandsAsHost(u, i) ==> HostOf(u) == host
  {
    NameHasNoDelimiter(u, host, i);
    if StandsAsHost(u, i) {
      StandsAtTheStart(u, i);
    }
    if i == HostStart(u) {
      assert i < Authority(u).1;
      StartStands(u);
      assert HostEnd(u) == i + |host|;
    }
  }

  /** A host that something follows is an occurrence between boundaries. */
  lemma HostIsBounded(u: string, host: string)
    requires IsName(host) && HostOf(u) == host && HostEnd(u) < |u|
    ensures Bounded(u, host, HostStart(u)) && StandsAsHost(u, HostStart(u))
  {
    StartStands(u);
  }

  // ----- what the parser takes

  lemma {:induction false} TrimSeparatorsIsBehind(s: string)
    ensures '/' in TrimSeparators(s) ==> '/' in s
  {
    if s != "" && IsSeparator(s[0]) {
      TrimSeparatorsIsBehind(s[1..]);
    }
  }

  /** A slash stands between owner and repository. */
  lemma PathHasSlash(rest: string, extension: string)
    requires OwnerAndRepo(rest, extension).Some?
    ensures '/' in TrimSeparators(rest)
  {
    var a := TrimSeparators(rest);
    SlashesGone(a);
    var path := WithoutSuffix(TrimSlashes(a), extension);
    FindsFirst(path, "/", 0);
    var at := FindFrom(path, "/", 0).value;
    assert a[at] == path[at] == path[at..at + 1][0];
  }

  /** So a URL that the parser takes does not end with its host. */
  lemma SomethingFollows(u: string, host: string, i: nat, extension: string)
    requires IsName(host) && Bounded(u, host, i) && OwnerAndRepo(u[i + |host|..], extension).Some?
    ensures HostEnd(u) < |u|
  {
    var a := Authority(u);
    var rest := u[i + |host|..];
    PathHasSlash(rest, extension);
    TrimSeparatorsIsBehind(rest);
    if HostEnd(u) == |u| {
      NameHasNoDelimiter(u, host, i);
      if i < a.0 {
        BeforeTheScheme(u, host, i);
        TrimmedSeparators(SCHEME_END, u[a.0..]);
        TrimSeparatorsIsBehind(u[a.0..]);
      }
    }
  }

  lemma BeforeTheScheme(u: string, host: string, i: nat)
    requires IsName(host) && Bounded(u, host, i) && i < Authority(u).0
    ensures u[i + |host|..] == SCHEME_END + u[Authority(u).0..]
  {
    var k := FirstOf(u, {':', '/', '@'}, 0);
    NameHasNoDelimiter(u, host, i);
    assert u[k..k + 3] == SCHEME_END;
    assert u[k] == u[k..k + 3][0] && u[k + 1] == u[k..k + 3][1] && u[k + 2] == u[k..k + 3][2];
    assert i + |host| == k;
  }

  /** Of a URL that the parser takes: the occurrence it reads the pair behind is the host
      exactly when it stands as one, and the URL is on the host exactly when that or a later
      occurrence does. */
  lemma ParsedIsOnHostIff(url: string, host: string, extension: string)
    requires IsName(host) && Unrepeated(host) && Parse(url, host, extension).Some?
    ensures var u, i := Trim(url), Search(Trim(url), host, 0).value;
            && Bounded(u, host, i)
            && (i == HostStart(u) <==> StandsAsHost(u, i))
            && (HostOf(u) == host <==> SomeStands(u, host, i))
  {
    var u := Trim(url);
    ReadOnHostIff(u, host, Search(u, host, 0).value, extension);
  }

  lemma ReadOnHostIff(u: string, host: string, i: nat, extension: string)
    requires IsName(host) && Unrepeated(host) && Search(u, host, 0) == Some(i)
    requires OwnerAndRepo(u[i + |host|..], extension).Some?
    ensures Bounded(u, host, i)
    ensures i == HostStart(u) <==> StandsAsHost(u, i)
    ensures HostOf(u) == host <==> SomeStands(u, host, i)
  {
    FirstBounded(u, host);
    BoundedIsHostIff(u, host, i);
    SomethingFollows(u, host, i, extension);
    OnHostIff(u, host, i);
  }

  lemma FirstBounded(u: string, host: string)
    requires Unrepeated(host) && Search(u, host, 0).Some?
    ensures var i := Search(u, host, 0).value;
            Bounded(u, host, i) && forall j: nat | j < i :: !Bounded(u, host, j)
  {
    SearchMissesNothing(u, host, 0);
  }

  /** From `i` on, the name stands in the URL as its host. */
  ghost predicate SomeStands(u: string, host: string, i: nat) {
    exists j | i <= j :: Bounded(u, host, j) && StandsAsHost(u, j)
  }

  lemma OnHostIff(u: string, host: string, i: nat)
    requires IsName(host) && HostEnd(u) < |u| && forall j: nat | j < i :: !Bounded(u, host, j)
    ensures HostOf(u) == host <==> SomeStands(u, host, i)
  {
    if HostOf(u) == host {
      HostIsBounded(u, host);
    }
    if SomeStands(u, host, i) {
      var j :| i <= j && Bounded(u, host, j) && StandsAsHost(u, j);
      BoundedIsHostIff(u, host, j);
    }
  }

  // ----- by the parts a URL is printed from

  /** In a text that is cut behind a delimiter, or at its end, an occurrence between boundaries
      stays on one side of the cut. */
  lemma BoundedInPart(u: string, host: string, start: nat, end: nat, j: nat)
    requires IsName(host) && start <= j < end <= |u|
    requires start == 0 || u[start - 1] in {':', '/', '@'} || u[start] in {':', '/', '@'}
    requires end == |u| || u[end - 1] in {':', '/', '@'}
    ensures Bounded(u, host, j) <==> Bounded(u[start..end], host, j - start)
  {
    var part, n := u[start..end], j + |host|;
    if Bounded(u, host, j) {
      NameHasNoDelimiter(u, host, j);
    }
    if Bounded(part, host, j - start) {
      NameHasNoDelimiter(part, host, j - start);
    }
    if n <= end {
      SliceOfSlice(u, start, end, j, n);
    }
  }

  lemma SliceOfSlice(u: string, start: nat, end: nat, j: nat, n: nat)
    requires start <= j <= n <= end <= |u|
    ensures u[start..end][j - start..n - start] == u[j..n]
  {
    var part := u[start..end];
    assert forall i | j <= i < n :: part[i - start] == u[i];
  }

  ghost predicate BoundedBetween(u: string, host: string, start: nat, end: nat) {
    exists j | start <= j < end :: Bounded(u, host, j)
  }

  ghost predicate BoundedIn(part: string, host: string) {
    BoundedBetween(part, host, 0, |part|)
  }

  lemma PartHolds(u: string, host: string, start: nat, end: nat)
    requires IsName(host) && start <= end <= |u|
    requires start == 0 || u[start - 1] in {':', '/', '@'} || (start < end && u[start] in {':', '/', '@'})
    requires end == |u| || end == start || u[end - 1] in {':', '/', '@'}
    ensures BoundedBetween(u, host, start, end) <==> BoundedIn(u[start..end], host)
  {
    if BoundedBetween(u, host, start, end) {
      HeldInPart(u, host, start, end);
    }
    if BoundedIn(u[start..end], host) {
      var j :| 0 <= j < end - start && Bounded(u[start..end], host, j);
      BoundedInPart(u, host, start, end, start + j);
      assert Bounded(u, host, start + j);
    }
  }

  lemma HeldInPart(u: string, host: string, start: nat, end: nat)
    requires IsName(host) && start <= end <= |u|
    requires start == 0 || u[start - 1] in {':', '/', '@'} || (start < end && u[start] in {':', '/', '@'})
    requires end == |u| || end == start || u[end - 1] in {':', '/', '@'}
    requires BoundedBetween(u, host, start, end)
    ensures BoundedIn(u[start..end], host)
  {
    var j :| start <= j < end && Bounded(u, host, j);
    BoundedInPart(u, host, start, end, j);
    assert Bounded(u[start..end], host, j - start);
  }

  /** A part without delimiters has the name between boundaries only by being the name. */
  lemma WholePart(part: string, host: string, separator: char)
    requires IsName(host) && Lacks(part, {':', '/', '@'}) && IsSeparator(separator)
    ensures BoundedIn(part + [separator], host) <==> part == host
    ensures forall j: nat | Bounded(part + [separator], host, j) :: j == 0
  {
    var s := part + [separator];
    assert s[..|part|] == part;
    CharactersOf(s, 0, |part|);
    forall j: nat | Bounded(s, host, j) ensures j == 0 && |part| == |host| {
      NameHasNoDelimiter(s, host, j);
    }
    assert |part| == |host| ==> s[0..|host|] == part;
    if part == host {
      assert Bounded(s, host, 0);
    }
  }

  /** Which part of a printed URL has the name between boundaries first. */
  datatype Part = AtScheme | AtUser | AtHost | AtPort | AtPath | Nowhere

  function FirstOfFive(scheme: bool, user: bool, host: bool, port: bool, path: bool): Part {
    if scheme then AtScheme else if user then AtUser else if host then AtHost
    else if port then AtPort else if path then AtPath else Nowhere
  }

  ghost function FirstPart(scheme: string, user: string, other: string, port: string, path: string, host: string): Part {
    FirstOfFive(scheme == host, BoundedIn(user, host), other == host, BoundedIn(port + "/", host), BoundedIn(path, host))
  }

  /** The same of any text, by the indices at which its parts begin. */
  lemma PartsAreHeld(u: string, host: string, k: nat, h: nat, c: nat, e: nat)
    requires IsName(host) && k + 3 <= h <= c <= e < |u|
    requires u[k] == ':' && u[k + 1] == '/' && u[k + 2] == '/' && u[e] == '/'
    requires h == k + 3 || u[h - 1] == '@'
    requires IsSeparator(u[c]) && Lacks(u[..k], {':', '/', '@'}) && Lacks(u[h..c], {':', '/', '@'})
    ensures BoundedBetween(u, host, 0, k + 3) <==> u[..k] == host
    ensures forall j | 0 <= j < k + 3 && Bounded(u, host, j) :: j == 0
    ensures BoundedBetween(u, host, k + 3, h) <==> BoundedIn(u[k + 3..h], host)
    ensures BoundedBetween(u, host, h, c) <==> u[h..c] == host
    ensures forall j | h <= j < c && Bounded(u, host, j) :: j == h
    ensures BoundedBetween(u, host, c, e + 1) <==> BoundedIn(u[c..e + 1], host)
    ensures BoundedBetween(u, host, e + 1, |u|) <==> BoundedIn(u[e + 1..], host)
  {
    assert u[0..k] == u[..k] && u[e + 1..|u|] == u[e + 1..];
    NameStands(u, host, 0, k);
    NameStands(u, host, h, c);
    PartHolds(u, host, k + 3, h);
    PartHolds(u, host, c, e + 1);
    PartHolds(u, host, e + 1, |u|);
    forall j | k <= j < k + 3 ensures !Bounded(u, host, j) {
      DelimiterStartsNone(u, host, j);
    }
  }

  lemma DelimiterStartsNone(u: string, host: string, j: nat)
    requires IsName(host) && j < |u| && u[j] in {':', '/', '@'}
    ensures !Bounded(u, host, j)
  {
    if OccursAt(u, host, j) {
      NameHasNoDelimiter(u, host, j);
    }
  }

  lemma NameStands(u: string, host: string, start: nat, end: nat)
    requires IsName(host) && start <= end < |u| && IsSeparator(u[end]) && Lacks(u[start..end], {':', '/', '@'})
    requires start == 0 || u[start - 1] in {':', '/', '@'}
    ensures BoundedBetween(u, host, start, end) <==> u[start..end] == host
    ensures forall j | start <= j < end && Bounded(u, host, j) :: j == start
  {
    var part := u[start..end];
    assert u[start..end + 1] == part + [u[end]];
    WholePart(part, host, u[end]);
    forall j | start <= j < end && Bounded(u, host, j) ensures j == start && part == host {
      NameStandsAt(u, host, start, end, j, part);
    }
    if part == host {
      BoundedInPart(u, host, start, end + 1, start);
      assert Bounded(u, host, start);
    }
  }

  lemma NameStandsAt(u: string, host: string, start: nat, end: nat, j: nat, part: string)
    requires IsName(host) && start <= j < end < |u| && IsSeparator(u[end]) && Lacks(part, {':', '/', '@'})
    requires start == 0 || u[start - 1] in {':', '/', '@'}
    requires u[start..end + 1] == part + [u[end]] && Bounded(u, host, j)
    ensures j == start && part == host
  {
    BoundedInPart(u, host, start, end + 1, j);
    WholePart(part, host, u[end]);
    assert BoundedIn(part + [u[end]], host);
  }

  /** Of a URL printed from its parts: the parser reads the pair behind the first of scheme,
      user, host, port and path that has the name between boundaries, and refuses the URL if
      none has; and the URL is on the host exactly when its host part is the name. */
  lemma ReadBehindFirstPart(scheme: string, user: string, other: string, port: string, path: string,
                            host: string, extension: string)
    requires Printable(scheme, user, other, port) && IsName(host) && Unrepeated(host)
    requires var url := Url(scheme, user, other, port, path); Trim(url) == url
    ensures var url := Url(scheme, user, other, port, path);
            && (HostOf(url) == host <==> other == host)
            && Stands(FirstPart(scheme, user, other, port, path, host), Search(url, host, 0),
                      |scheme| + 3, |user|, |other|, |port|)
            && (FirstPart(scheme, user, other, port, path, host) == Nowhere ==> Parse(url, host, extension).None?)
  {
    UrlHost(scheme, user, other, port, path);
    PrintedParts(scheme, user, other, port, path);
    FirstOfHeld(Url(scheme, user, other, port, path), scheme, user, other, port, path, host);
    NotFoundIsRefused(Url(scheme, user, other, port, path), host, extension);
  }

  lemma NotFoundIsRefused(url: string, host: string, extension: string)
    requires host != "" && Trim(url) == url
    ensures Search(url, host, 0).None? ==> Parse(url, host, extension).None?
  {
  }

  /** Where the search ends up, by the part: `start` is where the authority begins. */
  predicate Stands(part: Part, found: Option<nat>, start: nat, user: nat, other: nat, port: nat) {
    match part
    case AtScheme => found == Some(0)
    case AtUser => found.Some? && start <= found.value < start + user
    case AtHost => found == Some(start + user)
    case AtPort => found.Some? && start + user + other < found.value < start + user + other + port
    case AtPath => found.Some? && start + user + other + port < found.value
    case Nowhere => found.None?
  }

  lemma FirstOfHeld(u: string, scheme: string, user: string, other: string, port: string, path: string, host: string)
    requires IsName(host) && Unrepeated(host)
    requires Printable(scheme, user, other, port) && HasParts(u, scheme, user, other, port, path)
    ensures Stands(FirstPart(scheme, user, other, port, path, host), Search(u, host, 0),
                   |scheme| + 3, |user|, |other|, |port|)
  {
    var h := |scheme| + 3 + |user|;
    var c := h + |other|;
    FirstOfParts(u, |scheme|, h, c, c + |port|, scheme, user, other, port, path, host);
  }

  lemma FirstOfParts(u: string, k: nat, h: nat, c: nat, e: nat,
                     scheme: string, user: string, other: string, port: string, path: string, host: string)
    requires IsName(host) && Unrepeated(host) && Printable(scheme, user, other, port)
    requires k + 3 <= h <= c <= e < |u| && u[k] == ':' && u[k + 1] == '/' && u[k + 2] == '/' && u[e] == '/'
    requires (h == k + 3 || u[h - 1] == '@') && IsSeparator(u[c])
    requires u[..k] == scheme && u[k + 3..h] == user && u[h..c] == other && u[c..e] == port && u[e + 1..] == path
    ensures Stands(FirstPart(scheme, user, other, port, path, host), Search(u, host, 0), k + 3, h - k - 3, c - h, e - c)
  {
    var part := FirstByIndex(u, host, k, h, c, e);
    assert u[c..e + 1] == u[c..e] + [u[e]];
    SameFirstPart(u[..k], u[k + 3..h], u[h..c], u[c..e + 1], u[e + 1..], scheme, user, other, port, path, host);
  }

  lemma SameFirstPart(a: string, b: string, c: string, d: string, e: string,
                      scheme: string, user: string, other: string, port: string, path: string, host: string)
    requires a == scheme && b == user && c == other && d == port + "/" && e == path
    ensures FirstOfFive(a == host, BoundedIn(b, host), c == host, BoundedIn(d, host), BoundedIn(e, host))
         == FirstPart(scheme, user, other, port, path, host)
  {
  }

  lemma FirstByIndex(u: string, host: string, k: nat, h: nat, c: nat, e: nat) returns (part: Part)
    requires IsName(host) && Unrepeated(host) && k + 3 <= h <= c <= e < |u|
    requires u[k] == ':' && u[k + 1] == '/' && u[k + 2] == '/' && u[e] == '/'
    requires h == k + 3 || u[h - 1] == '@'
    requires IsSeparator(u[c]) && Lacks(u[..k], {':', '/', '@'}) && Lacks(u[h..c], {':', '/', '@'})
    ensures part == FirstOfFive(u[..k] == host, BoundedIn(u[k + 3..h], host), u[h..c] == host,
                                BoundedIn(u[c..e + 1], host), BoundedIn(u[e + 1..], host))
    ensures Stands(part, Search(u, host, 0), k + 3, h - k - 3, c - h, e - c)
  {
    PartsAreHeld(u, host, k, h, c, e);
    DelimiterStartsNone(u, host, c);
    DelimiterStartsNone(u, host, e);
    part := FirstAmong(u, host, k + 3, h, c, e + 1);
  }

  lemma FirstAmong(u: string, host: string, a: nat, h: nat, c: nat, e: nat) returns (part: Part)
    requires IsName(host) && Unrepeated(host) && a <= h <= c < e <= |u|
    requires !Bounded(u, host, c) && !Bounded(u, host, e - 1)
    requires forall j | 0 <= j < a && Bounded(u, host, j) :: j == 0
    requires forall j | h <= j < c && Bounded(u, host, j) :: j == h
    ensures part == FirstOfFive(BoundedBetween(u, host, 0, a), BoundedBetween(u, host, a, h), BoundedBetween(u, host, h, c),
                                BoundedBetween(u, host, c, e), BoundedBetween(u, host, e, |u|))
    ensures Stands(part, Search(u, host, 0), a, h - a, c - h, e - 1 - c)
  {
    part := AtScheme;
    SearchIn(u, host, 0, a);
    if !BoundedBetween(u, host, 0, a) {
      part := AtUser;
      SearchIn(u, host, a, h);
      if !BoundedBetween(u, host, a, h) {
        part := AtHost;
        SearchIn(u, host, h, c);
        if !BoundedBetween(u, host, h, c) {
          part := AtPort;
          SearchIn(u, host, c, e);
          if !BoundedBetween(u, host, c, e) {
            part := if BoundedBetween(u, host, e, |u|) then AtPath else Nowhere;
            SearchIn(u, host, e, |u|);
          }
        }
      }
    }
  }

  lemma SearchIn(u: string, host: string, start: nat, end: nat)
    requires IsName(host) && Unrepeated(host) && start <= end <= |u| && !BoundedBetween(u, host, 0, start)
    ensures BoundedBetween(u, host, start, end) ==>
              && Search(u, host, 0).Some? && start <= Search(u, host, 0).value < end
              && Bounded(u, host, Search(u, host, 0).value)
    ensures !BoundedBetween(u, host, start, end) ==>
              && !BoundedBetween(u, host, 0, end) && (end == |u| ==> Search(u, host, 0).None?)
  {
    SearchMissesNothing(u, host, 0);
  }

  lemma HostIsName()
    ensures IsName(HOST) && Unrepeated(HOST)
  {
    HostIsUsable();
    assert forall i | 0 <= i < |HOST| :: HOST[i] !in {':', '/', '@'};
  }

  // ----- what the parser takes for the host

  /** A text that is both a URL of host `on` and a printing of the pair behind `host`. */
  lemma ReadBehind(url: string, on: string, lead: string, host: string, separator: string,
                   owner: string, repo: string, extension: string)
    requires Unrepeated(host) && !IsSpace(host[0]) && IsExtension(extension) && Leads(lead, host)
    requires separator != "" && (forall c | c in separator :: IsSeparator(c)) && Legal(owner, repo)
    requires url == Printed(lead, host, separator, owner, repo, extension, "") && HostOf(url) == on
    ensures Parse(url, host, extension) == Some((owner, repo)) && HostOf(Trim(url)) == on
  {
    ParseInvertsPrinting(lead, host, separator, owner, repo, extension, extension, "");
    PrintedIsTrimmed(lead, host, separator, owner, repo, extension, extension, "");
  }

  function Path(owner: string, repo: string, extension: string): string {
    owner + "/" + repo + extension
  }

  lemma Regrouped(lead: string, host: string, separator: string, owner: string, repo: string, extension: string)
    ensures Printed(lead, host, separator, owner, repo, extension, "") == lead + host + separator + Path(owner, repo, extension)
  {
    assert owner + "/" + repo + extension + "" == Path(owner, repo, extension);
  }

  /** The first part of the path on another host. */
  lemma PathTakenForHost(scheme: string, other: string, host: string, owner: string, repo: string, extension: string)
    requires Unrepeated(host) && !IsSpace(host[0]) && IsExtension(extension) && Legal(owner, repo)
    requires Lacks(scheme, {':', '/', '@'}) && IsName(other) && Leads(scheme + "://" + other + "/", host)
    ensures var url := Url(scheme, "", other, "", host + "/" + Path(owner, repo, extension));
            Parse(url, host, extension) == Some((owner, repo)) && HostOf(Trim(url)) == other
  {
    var lead, path := scheme + "://" + other + "/", Path(owner, repo, extension);
    Regrouped(lead, host, "/", owner, repo, extension);
    UrlHost(scheme, "", other, "", host + "/" + path);
    InPath(scheme, other, host, path);
    ReadBehind(Url(scheme, "", other, "", host + "/" + path), other, lead, host, "/", owner, repo, extension);
  }

  lemma InPath(scheme: string, other: string, host: string, path: string)
    ensures Url(scheme, "", other, "", host + "/" + path) == scheme + "://" + other + "/" + host + "/" + path
  {
    assert scheme + "://" + "" + other + "" == scheme + "://" + other;
  }

  /** The port of another host: neither the authority nor a missing `@` is enough. */
  lemma PortTakenForHost(scheme: string, other: string, host: string, owner: string, repo: string, extension: string)
    requires Unrepeated(host) && IsName(host) && !IsSpace(host[0]) && IsExtension(extension) && Legal(owner, repo)
    requires Lacks(scheme, {':', '/', '@'}) && IsName(other) && Leads(scheme + "://" + other + ":", host)
    ensures var url := Url(scheme, "", other, ":" + host, Path(owner, repo, extension));
            Parse(url, host, extension) == Some((owner, repo)) && HostOf(Trim(url)) == other
  {
    var lead, path := scheme + "://" + other + ":", Path(owner, repo, extension);
    Regrouped(lead, host, "/", owner, repo, extension);
    UrlHost(scheme, "", other, ":" + host, path);
    InPort(scheme, other, host, path);
    ReadBehind(Url(scheme, "", other, ":" + host, path), other, lead, host, "/", owner, repo, extension);
  }

  lemma InPort(scheme: string, other: string, host: string, path: string)
    ensures Url(scheme, "", other, ":" + host, path) == scheme + "://" + other + ":" + host + "/" + path
  {
    assert scheme + "://" + "" + other + (":" + host) == scheme + "://" + other + ":" + host;
  }

  /** A user named like the host: the URL is on it, but the pair is read behind the user. */
  lemma UserTakenForHost(scheme: string, password: string, host: string, repo: string, extension: string)
    requires Unrepeated(host) && IsName(host) && !IsSpace(host[0]) && IsExtension(extension)
    requires Lacks(scheme, {':', '/', '@'}) && Leads(scheme + "://", host)
    requires IsName(password) && repo != "" && '/' !in repo
    ensures var url := Url(scheme, host + ":" + password + "@", host, "", repo + extension);
            Parse(url, host, extension) == Some((password + "@" + host, repo)) && HostOf(Trim(url)) == host
  {
    var lead, owner, user := scheme + "://", password + "@" + host, host + ":" + password + "@";
    Regrouped(lead, host, ":", owner, repo, extension);
    assert password[0] in password && owner[0] == password[0];
    UrlHost(scheme, user, host, "", repo + extension);
    InUser(scheme, password, host, repo, extension);
    ReadBehind(Url(scheme, user, host, "", repo + extension), host, lead, host, ":", owner, repo, extension);
  }

  lemma InUser(scheme: string, password: string, host: string, repo: string, extension: string)
    ensures Url(scheme, host + ":" + password + "@", host, "", repo + extension)
         == scheme + "://" + host + ":" + Path(password + "@" + host, repo, extension)
  {
    var lead := scheme + "://";
    Associates(lead, host + ":", password + "@");
    Associates(lead + (host + ":"), password + "@", host);
    assert lead + (host + ":") == lead + host + ":";
    Associates(lead + host + ":", password + "@" + host, "/" + (repo + extension));
  }

  /** A remote on GitLab that is taken for one on GitHub. */
  lemma GitLabTakenForGithub()
    ensures Parse("https://gitlab.com/github.com/o/r.git", HOST, DOT_GIT) == Some(("o", "r"))
    ensures HostOf(Trim("https://gitlab.com/github.com/o/r.git")) == "gitlab.com"
  {
    var url := GitLabUrl("https", "gitlab.com", HOST, "o", "r", DOT_GIT);
    HostIsUsable();
    WithoutHost("https", "gitlab.com", HOST);
    PathTakenForHost("https", "gitlab.com", HOST, "o", "r", DOT_GIT);
  }

  lemma GitLabUrl(scheme: string, other: string, host: string, owner: string, repo: string, extension: string)
    returns (url: string)
    requires scheme == "https" && other == "gitlab.com" && host == "github.com"
    requires owner == "o" && repo == "r" && extension == ".git"
    ensures url == Url(scheme, "", other, "", host + "/" + Path(owner, repo, extension))
    ensures url == "https://gitlab.com/github.com/o/r.git"
  {
    url := Url(scheme, "", other, "", host + "/" + Path(owner, repo, extension));
    GitLabFront(scheme, other);
    GitLabBack(host, owner, repo, extension);
    assert "https://gitlab.com/" + "github.com/o/r.git" == "https://gitlab.com/github.com/o/r.git";
  }

  lemma GitLabBack(host: string, owner: string, repo: string, extension: string)
    requires host == "github.com" && owner == "o" && repo == "r" && extension == ".git"
    ensures host + "/" + Path(owner, repo, extension) == "github.com/o/r.git"
  {
  }

  lemma GitLabFront(scheme: string, other: string)
    requires scheme == "https" && other == "gitlab.com"
    ensures scheme + "://" + "" + other + "" + "/" == "https://gitlab.com/"
  {
  }

  lemma WithoutHost(scheme: string, other: string, host: string)
    requires scheme == "https" && other == "gitlab.com" && host == "github.com"
    ensures Leads(scheme + "://" + other + "/", host)
    ensures Lacks(scheme, {':', '/', '@'}) && IsName(other)
  {
    var lead := scheme + "://" + other + "/";
    assert lead == "https://gitlab.com/";
    forall i: nat ensures !OccursAt(lead, host, i) {
      NotThere(lead, host, i);
    }
    FindsFirst(lead, host, 0);
  }

  lemma NotThere(s: string, pattern: string, i: nat)
    requires |pattern| > 3 && (i + 3 < |s| ==> s[i] != pattern[0] || s[i + 3] != pattern[3])
    ensures !OccursAt(s, pattern, i)
  {
    if i + |pattern| <= |s| {
      assert s[i..i + |pattern|][0] == s[i] && s[i..i + |pattern|][3] == s[i + 3];
    }
  }
}
