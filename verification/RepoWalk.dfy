/** The scan for git repositories below a root directory. */
module RepoWalk {
  import opened Wrappers
  import opened Sequences
  import opened NameOrder

  /** `NotADir` is whatever does not report itself as a directory, symbolic links and a
      `.git` file among it; a directory may refuse to be listed. */
  datatype Node = NotADir | Unreadable | Dir(entries: seq<Entry>)

  datatype Entry = Entry(name: string, node: Node)

  type Path = seq<string>

  const MAX_SCAN_DEPTH: nat := 5

  const SKIPPED_DIRS := [
    ".cargo", ".rustup", ".git", ".Trash", "Library", "Applications", "node_modules", "target", ".cache", ".npm",
    ".local", ".venv", "venv"]

  const GIT := ".git"

  predicate HoldsGit(entries: seq<Entry>) {
    entries != [] && ((entries[0].name == GIT && !entries[0].node.NotADir?) || HoldsGit(entries[1..]))
  }

  /** A repository: a directory that lists a `.git` directory. */
  predicate HasGit(node: Node) {
    node.Dir? && HoldsGit(node.entries)
  }

  predicate IsWalked(skipped: seq<string>, entry: Entry) {
    !entry.node.NotADir? && entry.name != GIT && entry.name !in skipped
  }

  function Subdirs(skipped: seq<string>, entries: seq<Entry>): (r: seq<Entry>)
    ensures forall e :: e in r <==> e in entries && IsWalked(skipped, e)
  {
    if entries == [] then []
    else (if IsWalked(skipped, entries[0]) then [entries[0]] else []) + Subdirs(skipped, entries[1..])
  }

  function Walked(skipped: seq<string>, dir: Node, path: Path, depth: nat): seq<Path>
    decreases MAX_SCAN_DEPTH + 1 - depth, 0
  {
    if depth > MAX_SCAN_DEPTH || !dir.Dir? then []
    else if HoldsGit(dir.entries) then [path]
    else WalkedAll(skipped, Subdirs(skipped, dir.entries), path, depth)
  }

  function WalkedAll(skipped: seq<string>, subdirs: seq<Entry>, path: Path, depth: nat): seq<Path>
    requires depth <= MAX_SCAN_DEPTH
    decreases MAX_SCAN_DEPTH + 1 - depth, 0, |subdirs|
  {
    if subdirs == [] then []
    else Walked(skipped, subdirs[0].node, path + [subdirs[0].name], depth + 1) + WalkedAll(skipped, subdirs[1..], path, depth)
  }

  method Walk(skipped: seq<string>, dir: Node, path: Path, depth: nat, before: seq<Path>) returns (repos: seq<Path>)
    ensures repos == before + Walked(skipped, dir, path, depth)
    decreases MAX_SCAN_DEPTH + 1 - depth
  {
    repos := before;
    if depth > MAX_SCAN_DEPTH || !dir.Dir? {
      return;
    }
    var hasGit, subdirs := ListDir(skipped, dir.entries);
    if hasGit {
      repos := repos + [path];
      return;
    }
    for i := 0 to |subdirs|
      invariant repos + WalkedAll(skipped, subdirs[i..], path, depth) == before + WalkedAll(skipped, subdirs, path, depth)
    {
      SubdirsFrom(skipped, subdirs, i, path, depth);
      Associates(repos, Walked(skipped, subdirs[i].node, path + [subdirs[i].name], depth + 1),
                 WalkedAll(skipped, subdirs[i + 1..], path, depth));
      repos := Walk(skipped, subdirs[i].node, path + [subdirs[i].name], depth + 1, repos);
    }
  }

  method ListDir(skipped: seq<string>, entries: seq<Entry>) returns (hasGit: bool, subdirs: seq<Entry>)
    ensures hasGit <==> HoldsGit(entries)
    ensures subdirs == Subdirs(skipped, entries)
  {
    subdirs, hasGit := [], false;
    for i := 0 to |entries|
      invariant hasGit || HoldsGit(entries[i..]) <==> HoldsGit(entries)
      invariant subdirs + Subdirs(skipped, entries[i..]) == Subdirs(skipped, entries)
    {
      var entry := entries[i];
      EntriesFrom(skipped, entries, i);
      if entry.node.NotADir? {
        continue;
      }
      if entry.name == GIT {
        hasGit := true;
        continue;
      }
      if entry.name in skipped {
        continue;
      }
      Associates(subdirs, [entry], Subdirs(skipped, entries[i + 1..]));
      subdirs := subdirs + [entry];
    }
  }

  lemma EntriesFrom(skipped: seq<string>, entries: seq<Entry>, i: nat)
    requires i < |entries|
    ensures HoldsGit(entries[i..]) <==>
            (entries[i].name == GIT && !entries[i].node.NotADir?) || HoldsGit(entries[i + 1..])
    ensures Subdirs(skipped, entries[i..]) ==
            (if IsWalked(skipped, entries[i]) then [entries[i]] else []) + Subdirs(skipped, entries[i + 1..])
  {
    assert entries[i..][1..] == entries[i + 1..];
  }

  lemma SubdirsFrom(skipped: seq<string>, subdirs: seq<Entry>, i: nat, path: Path, depth: nat)
    requires i < |subdirs| && depth <= MAX_SCAN_DEPTH
    ensures WalkedAll(skipped, subdirs[i..], path, depth) ==
            Walked(skipped, subdirs[i].node, path + [subdirs[i].name], depth + 1)
            + WalkedAll(skipped, subdirs[i + 1..], path, depth)
  {
    assert subdirs[i..][1..] == subdirs[i + 1..];
  }

  // ----- what the scan is for

  function Child(entries: seq<Entry>, name: string): (r: Option<Node>)
    ensures r.Some? ==> Entry(name, r.value) in entries
    ensures r.None? ==> forall e | e in entries :: e.name != name
  {
    if entries == [] then None
    else if entries[0].name == name then Some(entries[0].node)
    else Child(entries[1..], name)
  }

  /** The node that a path of names leads to. */
  function At(root: Node, p: Path): Option<Node>
    decreases |p|
  {
    if p == [] then Some(root)
    else if !root.Dir? || Child(root.entries, p[0]).None? then None
    else At(Child(root.entries, p[0]).value, p[1..])
  }

  /** No directory lists one name twice. */
  ghost predicate Tidy(node: Node) {
    node.Dir? ==>
      && (forall i, j | 0 <= i < j < |node.entries| :: node.entries[i].name != node.entries[j].name)
      && (forall e | e in node.entries :: Tidy(e.node))
  }

  /** The repositories the scan is after: near enough, reached through no skipped name, and
      not inside another repository. */
  ghost predicate Wanted(skipped: seq<string>, root: Node, p: Path, depth: nat) {
    && depth + |p| <= MAX_SCAN_DEPTH
    && At(root, p).Some? && HasGit(At(root, p).value)
    && (forall i | 0 <= i < |p| :: p[i] !in skipped)
    && (forall i | 0 <= i < |p| :: At(root, p[..i]).Some? ==> !HasGit(At(root, p[..i]).value))
  }

  lemma WantedBelow(skipped: seq<string>, root: Node, p: Path, depth: nat)
    requires p != []
    ensures Wanted(skipped, root, p, depth) <==>
            && root.Dir? && !HasGit(root) && p[0] !in skipped
            && Child(root.entries, p[0]).Some?
            && Wanted(skipped, Child(root.entries, p[0]).value, p[1..], depth + 1)
  {
    assert At(root, p[..0]) == Some(root);
    if root.Dir? && Child(root.entries, p[0]).Some? {
      var child := Child(root.entries, p[0]).value;
      assert At(root, p) == At(child, p[1..]);
      forall i | 0 < i < |p| ensures At(root, p[..i]) == At(child, p[1..][..i - 1]) {
        assert p[..i][1..] == p[1..][..i - 1];
      }
      assert forall i | 0 <= i < |p[1..]| :: p[1..][i] == p[i + 1];
      if Wanted(skipped, root, p, depth) {
        forall i | 0 <= i < |p[1..]|
          ensures At(child, p[1..][..i]).Some? ==> !HasGit(At(child, p[1..][..i]).value)
        {
          assert At(root, p[..i + 1]) == At(child, p[1..][..i]);
        }
      }
      if !HasGit(root) && p[0] !in skipped && Wanted(skipped, child, p[1..], depth + 1) {
        forall i | 0 <= i < |p| ensures At(root, p[..i]).Some? ==> !HasGit(At(root, p[..i]).value) {
          assert i > 0 ==> At(root, p[..i]) == At(child, p[1..][..i - 1]);
        }
      }
    }
  }

  lemma OnlyChild(entries: seq<Entry>, e: Entry)
    requires e in entries && forall i, j | 0 <= i < j < |entries| :: entries[i].name != entries[j].name
    ensures Child(entries, e.name) == Some(e.node)
  {
    var c := Child(entries, e.name);
    var i :| 0 <= i < |entries| && entries[i] == e;
    var j :| 0 <= j < |entries| && entries[j] == Entry(e.name, c.value);
  }

  lemma GitIsSkipped()
    ensures GIT in SKIPPED_DIRS
  {
    assert SKIPPED_DIRS[2] == GIT;
  }

  lemma {:induction false} AmongSubdirs(skipped: seq<string>, subdirs: seq<Entry>, path: Path, depth: nat, q: Path)
    requires depth <= MAX_SCAN_DEPTH
    ensures q in WalkedAll(skipped, subdirs, path, depth) <==>
            exists e :: e in subdirs && q in Walked(skipped, e.node, path + [e.name], depth + 1)
  {
    if subdirs != [] {
      AmongSubdirs(skipped, subdirs[1..], path, depth, q);
      assert subdirs == [subdirs[0]] + subdirs[1..];
      if q in WalkedAll(skipped, subdirs[1..], path, depth) {
        var e :| e in subdirs[1..] && q in Walked(skipped, e.node, path + [e.name], depth + 1);
        assert e in subdirs;
      }
    }
  }

  lemma {:induction false} WalkStaysBelow(skipped: seq<string>, dir: Node, path: Path, depth: nat, q: Path)
    requires q in Walked(skipped, dir, path, depth)
    ensures path <= q
    decreases MAX_SCAN_DEPTH + 1 - depth
  {
    if !HoldsGit(dir.entries) {
      AmongSubdirs(skipped, Subdirs(skipped, dir.entries), path, depth, q);
      var e :| e in Subdirs(skipped, dir.entries) && q in Walked(skipped, e.node, path + [e.name], depth + 1);
      WalkStaysBelow(skipped, e.node, path + [e.name], depth + 1, q);
    }
  }

  /** The scan finds all of them and nothing else. */
  lemma {:induction false} WalkFindsTheWanted(skipped: seq<string>, dir: Node, path: Path, depth: nat, p: Path)
    requires GIT in skipped && Tidy(dir)
    ensures path + p in Walked(skipped, dir, path, depth) <==> Wanted(skipped, dir, p, depth)
    decreases MAX_SCAN_DEPTH + 1 - depth
  {
    if depth > MAX_SCAN_DEPTH || !dir.Dir? {
    } else if HoldsGit(dir.entries) {
      assert Walked(skipped, dir, path, depth) == [path];
      if p == [] {
        assert path + p == path;
      } else {
        WantedBelow(skipped, dir, p, depth);
        assert |path + p| > |path|;
      }
    } else {
      AmongSubdirs(skipped, Subdirs(skipped, dir.entries), path, depth, path + p);
      if p != [] && Child(dir.entries, p[0]).Some? {
        WalkIntoChild(skipped, dir, path, depth, p);
      }
      if path + p in Walked(skipped, dir, path, depth) {
        var e :| e in Subdirs(skipped, dir.entries) && path + p in Walked(skipped, e.node, path + [e.name], depth + 1);
        ReachedThrough(skipped, dir, path, depth, p, e);
      }
      if p != [] {
        WantedBelow(skipped, dir, p, depth);
      }
    }
  }

  lemma ReachedThrough(skipped: seq<string>, dir: Node, path: Path, depth: nat, p: Path, e: Entry)
    requires path + p in Walked(skipped, e.node, path + [e.name], depth + 1)
    ensures p != [] && p[0] == e.name
  {
    WalkStaysBelow(skipped, e.node, path + [e.name], depth + 1, path + p);
    assert (path + [e.name])[|path|] == e.name;
    assert (path + p)[|path|] == e.name;
  }

  lemma WalkIntoChild(skipped: seq<string>, dir: Node, path: Path, depth: nat, p: Path)
    requires GIT in skipped && depth <= MAX_SCAN_DEPTH && dir.Dir? && Tidy(dir) && !HoldsGit(dir.entries)
    requires p != [] && Child(dir.entries, p[0]).Some?
    ensures path + p in Walked(skipped, dir, path, depth) <==> Wanted(skipped, dir, p, depth)
    decreases MAX_SCAN_DEPTH + 1 - depth, 1
  {
    var child := Entry(p[0], Child(dir.entries, p[0]).value);
    assert path + p == path + [p[0]] + p[1..];
    assert child in dir.entries && Tidy(child.node);
    WalkFindsTheWanted(skipped, child.node, path + [p[0]], depth + 1, p[1..]);
    WantedBelow(skipped, dir, p, depth);
    AmongSubdirs(skipped, Subdirs(skipped, dir.entries), path, depth, path + p);
    if path + p in Walked(skipped, dir, path, depth) {
      var e :| e in Subdirs(skipped, dir.entries) && path + p in Walked(skipped, e.node, path + [e.name], depth + 1);
      ReachedThrough(skipped, dir, path, depth, p, e);
      OnlyChild(dir.entries, e);
    }
    if Wanted(skipped, dir, p, depth) {
      assert child.node.Dir? by {
        assert At(child.node, p[1..]).Some?;
      }
      assert IsWalked(skipped, child);
    }
  }

  lemma {:induction false} NoneTwice(skipped: seq<string>, dir: Node, path: Path, depth: nat)
    requires Tidy(dir)
    ensures NoRepeats(Walked(skipped, dir, path, depth))
    decreases MAX_SCAN_DEPTH + 1 - depth, 0
  {
    if depth <= MAX_SCAN_DEPTH && dir.Dir? && !HoldsGit(dir.entries) {
      SubdirsAreDistinct(skipped, dir.entries);
      NoneTwiceAmong(skipped, Subdirs(skipped, dir.entries), path, depth);
    }
  }

  ghost predicate DistinctNames(entries: seq<Entry>) {
    forall i, j | 0 <= i < j < |entries| :: entries[i].name != entries[j].name
  }

  lemma {:induction false} SubdirsAreDistinct(skipped: seq<string>, entries: seq<Entry>)
    requires DistinctNames(entries)
    ensures DistinctNames(Subdirs(skipped, entries))
  {
    if entries != [] {
      SubdirsAreDistinct(skipped, entries[1..]);
      var rest := Subdirs(skipped, entries[1..]);
      forall j | 0 <= j < |rest| ensures rest[j].name != entries[0].name {
        assert rest[j] in entries[1..];
        var k :| 0 <= k < |entries[1..]| && entries[1..][k] == rest[j];
        assert entries[k + 1] == rest[j];
      }
    }
  }

  lemma {:induction false} NoneTwiceAmong(skipped: seq<string>, subdirs: seq<Entry>, path: Path, depth: nat)
    requires depth <= MAX_SCAN_DEPTH && DistinctNames(subdirs) && forall e | e in subdirs :: Tidy(e.node)
    ensures NoRepeats(WalkedAll(skipped, subdirs, path, depth))
    decreases MAX_SCAN_DEPTH + 1 - depth, 0, |subdirs|
  {
    if subdirs != [] {
      var first := subdirs[0];
      var a := Walked(skipped, first.node, path + [first.name], depth + 1);
      var b := WalkedAll(skipped, subdirs[1..], path, depth);
      assert first in subdirs;
      NoneTwice(skipped, first.node, path + [first.name], depth + 1);
      NoneTwiceAmong(skipped, subdirs[1..], path, depth);
      forall i, j | 0 <= i < |a| && 0 <= j < |b| ensures a[i] != b[j] {
        WalkStaysBelow(skipped, first.node, path + [first.name], depth + 1, a[i]);
        AmongSubdirs(skipped, subdirs[1..], path, depth, b[j]);
        var e :| e in subdirs[1..] && b[j] in Walked(skipped, e.node, path + [e.name], depth + 1);
        WalkStaysBelow(skipped, e.node, path + [e.name], depth + 1, b[j]);
        var k :| 0 <= k < |subdirs[1..]| && subdirs[1..][k] == e;
        assert subdirs[k + 1] == e && first.name != e.name;
        assert a[i][|path|] == (path + [first.name])[|path|] && b[j][|path|] == (path + [e.name])[|path|];
      }
    }
  }

  /** No repository of the list lies inside another one of it. */
  lemma WantedAreApart(skipped: seq<string>, root: Node, p: Path, q: Path, depth: nat)
    requires Wanted(skipped, root, p, depth) && Wanted(skipped, root, q, depth) && p <= q
    ensures p == q
  {
    assert q[..|p|] == p;
  }

  /** The scan as it is started: every wanted repository, each once, none inside another,
      sorted by `display`, the lower-cased directory name; equal names stay in walk order. */
  method Scan(root: Node, display: Path -> string) returns (repos: seq<Path>)
    requires Tidy(root)
    ensures forall p :: p in repos <==> Wanted(SKIPPED_DIRS, root, p, 0)
    ensures NoRepeats(repos)
    ensures forall p, q | p in repos && q in repos && p <= q :: p == q
    ensures IsSortOf(repos, Walked(SKIPPED_DIRS, root, [], 0), display)
  {
    var walked := Walk(SKIPPED_DIRS, root, [], 0, []);
    ScanIsExact(SKIPPED_DIRS, root, walked) by {
      GitIsSkipped();
    }
    assert walked == Walked(SKIPPED_DIRS, root, [], 0);
    repos := SortByKey(walked, display);
    SortIsPermutation(repos, walked, display);
    SameMembers(repos, walked);
  }

  lemma SameMembers(a: seq<Path>, b: seq<Path>)
    requires multiset(a) == multiset(b) && NoRepeats(b)
    ensures forall p :: p in a <==> p in b
    ensures NoRepeats(a)
  {
    forall p ensures p in a <==> p in b {
      assert p in a <==> p in multiset(a);
      assert p in b <==> p in multiset(b);
    }
    forall i, j | 0 <= i < j < |a| ensures a[i] != a[j] {
      OnceEach(b, a[i]);
      if a[i] == a[j] {
        TwiceIn(a, i, j);
      }
    }
  }

  lemma {:induction false} OnceEach(s: seq<Path>, p: Path)
    requires NoRepeats(s)
    ensures multiset(s)[p] <= 1
  {
    if s != [] {
      OnceEach(s[1..], p);
      assert s == [s[0]] + s[1..];
      assert s[0] !in s[1..];
    }
  }

  lemma TwiceIn(s: seq<Path>, i: nat, j: nat)
    requires i < j < |s| && s[i] == s[j]
    ensures multiset(s)[s[i]] >= 2
  {
    assert s == s[..j] + s[j..];
    assert s[i] in s[..j] && s[j..][0] == s[i] && s[i] in s[j..];
    assert multiset(s) == multiset(s[..j]) + multiset(s[j..]);
  }

  lemma ScanIsExact(skipped: seq<string>, root: Node, repos: seq<Path>)
    requires GIT in skipped && Tidy(root) && repos == [] + Walked(skipped, root, [], 0)
    ensures forall p :: p in repos <==> Wanted(skipped, root, p, 0)
    ensures NoRepeats(repos)
    ensures forall p, q | p in repos && q in repos && p <= q :: p == q
  {
    assert repos == Walked(skipped, root, [], 0);
    forall p ensures p in repos <==> Wanted(skipped, root, p, 0) {
      WalkFindsTheWanted(skipped, root, [], 0, p);
      assert [] + p == p;
    }
    NoneTwice(skipped, root, [], 0);
    forall p, q | p in repos && q in repos && p <= q ensures p == q {
      WantedAreApart(skipped, root, p, q, 0);
    }
  }

  // ----- the words of the definition

  /** A repository lists a directory of the name, whether or not that can be listed itself. */
  lemma {:induction false} HasGitIff(entries: seq<Entry>)
    ensures HasGit(Dir(entries)) <==> exists e :: e in entries && e.name == ".git" && !e.node.NotADir?
    ensures !HasGit(NotADir) && !HasGit(Unreadable)
  {
    if entries != [] {
      HasGitIff(entries[1..]);
      assert entries == [entries[0]] + entries[1..];
      if e :| e in entries && e.name == ".git" && !e.node.NotADir? {
        assert e == entries[0] || e in entries[1..];
      }
    }
  }

  /** How near is near enough, and which names are never entered. */
  lemma WantedIsNear(root: Node, p: Path)
    requires Wanted(SKIPPED_DIRS, root, p, 0)
    ensures |p| <= 5
    ensures forall name | name in p :: name !in [
              ".cargo", ".rustup", ".git", ".Trash", "Library", "Applications", "node_modules", "target", ".cache", ".npm",
              ".local", ".venv", "venv"]
  {
  }
}
