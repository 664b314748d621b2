/** The declared inventory against the repository listing: walked roots against filtered paths. */
module TreeInventory {
  import opened Wrappers
  import opened Text
  import opened TreeWalk

  /* ---- Paths in a tree ---- */

  /** Names within a directory are distinct, at every level. */
  ghost predicate Distinct(entries: seq<Entry>) {
    && (forall i, j :: 0 <= i < j < |entries| ==> entries[i].name != entries[j].name)
    && (forall e :: e in entries && e.node.Dir? ==> Distinct(e.node.entries))
  }

  function Child(entries: seq<Entry>, name: string): Option<Node> {
    if entries == [] then None
    else if entries[0].name == name then Some(entries[0].node)
    else Child(entries[1..], name)
  }

  /** Looking a path up, following links or stopping at them. */
  function Find(node: Node, path: Path, follow: bool): Option<Node>
    decreases path
  {
    if path == [] then Some(node)
    else if node.File? || (node.link && !follow) then None
    else
      var c := Child(node.entries, path[0]);
      if c.None? then None else Find(c.value, path[1..], follow)
  }

  predicate IsFile(n: Option<Node>) {
    n.Some? && n.value.File?
  }

  /** A file some way below a directory, reached without passing through a link. */
  predicate FileBelow(entries: seq<Entry>, path: Path) {
    && path != []
    && Child(entries, path[0]).Some?
    && IsFile(Find(Child(entries, path[0]).value, path[1..], false))
  }

  lemma {:induction false} ChildOfMember(entries: seq<Entry>, e: Entry)
    requires Distinct(entries) && e in entries
    ensures Child(entries, e.name) == Some(e.node)
  {
    if entries[0] != e {
      assert entries == [entries[0]] + entries[1..];
      var i :| 0 <= i < |entries| && entries[i] == e;
      assert entries[0].name != entries[i].name;
      assert forall x :: x in entries[1..] ==> x in entries;
      ChildOfMember(entries[1..], e);
    }
  }

  lemma {:induction false} MemberOfChild(entries: seq<Entry>, name: string)
    requires Child(entries, name).Some?
    ensures Entry(name, Child(entries, name).value) in entries
  {
    if entries[0].name != name {
      MemberOfChild(entries[1..], name);
    }
  }

  lemma {:induction false} HereMembers(entries: seq<Entry>, at: Path, p: Path)
    ensures p in FilesHere(entries, at) <==> exists e :: e in entries && e.node.File? && p == at + [e.name]
  {
    if entries == [] {
    } else {
      HereMembers(entries[1..], at, p);
      assert entries == [entries[0]] + entries[1..];
    }
  }

  lemma {:induction false} BelowMembers(entries: seq<Entry>, at: Path, p: Path)
    ensures p in FilesBelow(entries, at) <==>
              exists e :: e in entries && e.node.Dir? && !e.node.link && p in AllFiles(e.node.entries, at + [e.name])
  {
    if entries == [] {
    } else {
      BelowMembers(entries[1..], at, p);
      assert entries == [entries[0]] + entries[1..];
    }
  }

  /** Being below an entry's directory is being below the directory that holds it. */
  lemma StepDown(e: Entry, at: Path, p: Path)
    requires e.node.Dir? && at + [e.name] <= p
    ensures at <= p && p[|at|..] != [] && p[|at|..][0] == e.name
    ensures p[|at|..][1..] == p[|at + [e.name]|..]
    ensures !e.node.link ==> (FileBelow(e.node.entries, p[|at + [e.name]|..]) <==> IsFile(Find(e.node, p[|at|..][1..], false)))
    ensures e.node.link ==> !IsFile(Find(e.node, p[|at|..][1..], false))
  {
    assert at == (at + [e.name])[..|at|] == p[..|at|];
    assert p[|at|] == (at + [e.name])[|at|];
  }

  lemma {:induction false} ListedIsBelow(entries: seq<Entry>, at: Path, p: Path)
    requires Distinct(entries) && p in AllFiles(entries, at)
    ensures at <= p && FileBelow(entries, p[|at|..])
    decreases entries
  {
    HereMembers(entries, at, p);
    BelowMembers(entries, at, p);
    if e :| e in entries && e.node.File? && p == at + [e.name] {
      ChildOfMember(entries, e);
      assert p[|at|..] == [e.name];
    } else {
      var e :| e in entries && e.node.Dir? && !e.node.link && p in AllFiles(e.node.entries, at + [e.name]);
      ListedIsBelow(e.node.entries, at + [e.name], p);
      ChildOfMember(entries, e);
      StepDown(e, at, p);
    }
  }

  lemma {:induction false} BelowIsListed(entries: seq<Entry>, at: Path, rel: Path)
    requires FileBelow(entries, rel)
    ensures at + rel in AllFiles(entries, at)
    decreases entries
  {
    var e := Entry(rel[0], Child(entries, rel[0]).value);
    MemberOfChild(entries, rel[0]);
    if e.node.File? {
      assert rel == [e.name];
      HereMembers(entries, at, at + rel);
    } else {
      assert rel[1..] != [];
      BelowIsListed(e.node.entries, at + [e.name], rel[1..]);
      assert at + rel == at + [e.name] + rel[1..];
      BelowMembers(entries, at, at + rel);
    }
  }

  /** The flat listing holds exactly the files below the directory. */
  lemma ListedIffBelow(entries: seq<Entry>, at: Path, p: Path)
    requires Distinct(entries)
    ensures p in AllFiles(entries, at) <==> at <= p && FileBelow(entries, p[|at|..])
  {
    if p in AllFiles(entries, at) {
      ListedIsBelow(entries, at, p);
    }
    if at <= p && FileBelow(entries, p[|at|..]) {
      BelowIsListed(entries, at, p[|at|..]);
      assert p == at + p[|at|..];
    }
  }

  /* ---- Paths as text ---- */

  /** A component git prints as it is and `pathlib` keeps. */
  predicate Plain(name: string) {
    name != "" && name != "." && '/' !in name
  }

  predicate PlainPath(p: Path) {
    p != [] && forall name :: name in p ==> Plain(name)
  }

  /** The POSIX text of a path. */
  function Posix(p: Path): string {
    Join(p, '/')
  }

  /** `s.rstrip("/")`. */
  function StripSlashes(s: string): string {
    if s != "" && s[|s| - 1] == '/' then StripSlashes(s[..|s| - 1]) else s
  }

  /** `is_within`. */
  predicate IsWithin(path: string, root: string) {
    var rootValue := StripSlashes(root);
    path == rootValue || rootValue + "/" <= path
  }

  function Parts(pieces: seq<string>): seq<string> {
    if pieces == [] then []
    else (if pieces[0] == "" || pieces[0] == "." then [] else [pieces[0]]) + Parts(pieces[1..])
  }

  /** `has_pruned_segment`, for a relative path. */
  predicate HasPrunedSegment(pruned: set<string>, path: string) {
    exists part :: part in Parts(Split(path, '/')) && part in pruned
  }

  lemma {:induction false} PartsOfPlain(p: Path)
    requires forall name :: name in p ==> Plain(name)
    ensures Parts(p) == p
  {
    if p == [] {
    } else {
      assert p[0] in p && forall name :: name in p[1..] ==> name in p;
      PartsOfPlain(p[1..]);
      assert p == [p[0]] + p[1..];
    }
  }

  lemma {:induction false} LastCharacter(p: Path)
    requires PlainPath(p)
    ensures Posix(p) != "" && Posix(p)[|Posix(p)| - 1] != '/'
  {
    if |p| > 1 {
      LastCharacter(p[1..]);
      assert Posix(p) == p[0] + ['/'] + Posix(p[1..]);
    } else {
      assert p[0] in p && Posix(p) == p[0];
      assert p[0][|p[0]| - 1] in p[0];
    }
  }

  lemma {:induction false} JoinAppend(p: Path, q: Path)
    requires p != [] && q != []
    ensures Posix(p + q) == Posix(p) + ['/'] + Posix(q)
  {
    if |p| == 1 {
      assert (p + q)[1..] == q;
    } else {
      assert (p + q)[1..] == p[1..] + q;
      JoinAppend(p[1..], q);
      assert p[0] + ['/'] + (Posix(p[1..]) + ['/'] + Posix(q)) == (p[0] + ['/'] + Posix(p[1..])) + ['/'] + Posix(q);
    }
  }

  lemma {:induction false} SplitAfter(p: Path, rest: string)
    requires PlainPath(p)
    ensures Split(Posix(p) + ['/'] + rest, '/') == p + Split(rest, '/')
  {
    assert p[0] in p && forall name :: name in p[1..] ==> name in p;
    if |p| == 1 {
      SplitAt(p[0], '/', rest);
      assert p == [p[0]];
    } else {
      SplitAfter(p[1..], rest);
      SplitAt(p[0], '/', Posix(p[1..]) + ['/'] + rest);
      assert Posix(p) + ['/'] + rest == p[0] + ['/'] + (Posix(p[1..]) + ['/'] + rest);
      assert p == [p[0]] + p[1..];
      assert [p[0]] + (p[1..] + Split(rest, '/')) == p + Split(rest, '/');
    }
  }

  /** The prefix test on text is the prefix test on components: `docs` does not contain `docs-old/a`. */
  lemma WithinIffPrefix(p: Path, root: Path)
    requires PlainPath(p) && PlainPath(root)
    ensures IsWithin(Posix(p), Posix(root)) <==> root <= p
  {
    LastCharacter(root);
    SplitJoin(p, '/');
    SplitJoin(root, '/');
    if root <= p && root != p {
      JoinAppend(root, p[|root|..]);
      assert p == root + p[|root|..];
    }
    if Posix(root) + "/" <= Posix(p) {
      var rest := Posix(p)[|Posix(root)| + 1..];
      assert Posix(p) == Posix(root) + ['/'] + rest;
      SplitAfter(root, rest);
    }
  }

  lemma PrunedSegments(pruned: set<string>, p: Path)
    requires PlainPath(p)
    ensures HasPrunedSegment(pruned, Posix(p)) <==> exists name :: name in p && name in pruned
  {
    SplitJoin(p, '/');
    PartsOfPlain(p);
  }

  /* ---- The two inventories ---- */

  predicate Unpruned(pruned: set<string>, p: Path) {
    forall name :: name in p ==> name !in pruned
  }

  /** What `repository_inventory_for_declared_roots` keeps of the listed paths. Git lists what its index holds, on disk or
      not, and what it does not ignore, so `listed` need not be the files of the tree. */
  ghost predicate Inventoried(listed: set<Path>, pruned: set<string>, roots: seq<Path>, p: Path) {
    p in listed && Unpruned(pruned, p) && exists r :: r in roots && r <= p
  }

  /** The paths the lines name, stripped of white space. */
  function Listed(strip: string -> string, lines: seq<string>): set<Path> {
    set l | l in lines && strip(l) != "" :: Split(strip(l), '/')
  }

  predicate LineKept(pruned: set<string>, roots: seq<string>, path: string) {
    path != "" && !HasPrunedSegment(pruned, path) && exists r :: r in roots && IsWithin(path, r)
  }

  /** `repository_inventory_for_declared_roots`. */
  method RepositoryInventory(ok: bool, strip: string -> string, pruned: set<string>, roots: seq<string>, lines: seq<string>)
    returns (values: set<string>)
    ensures forall v :: v in values <==> ok && LineKept(pruned, roots, v) && exists l :: l in lines && v == strip(l)
  {
    values := {};
    if !ok {
      return;
    }
    for i := 0 to |lines|
      invariant forall v :: v in values <==> LineKept(pruned, roots, v) && exists l :: l in lines[..i] && v == strip(l)
    {
      assert lines[..i + 1] == lines[..i] + [lines[i]];
      var path := strip(lines[i]);
      if LineKept(pruned, roots, path) {
        values := values + {path};
      }
    }
    assert lines[..|lines|] == lines;
  }

  function Texts(roots: seq<Path>): seq<string> {
    seq(|roots|, i requires 0 <= i < |roots| => Posix(roots[i]))
  }

  lemma {:induction false} JoinSplit(s: string)
    ensures Join(Split(s, '/'), '/') == s
  {
    if s == "" {
      assert Split(s, '/') == [[]];
    } else {
      var rest := Split(s[1..], '/');
      JoinSplit(s[1..]);
      assert s == [s[0]] + s[1..];
      if s[0] == '/' {
        assert Split(s, '/') == [[]] + rest && ([[]] + rest)[1..] == rest;
      } else {
        assert Split(s, '/') == [[s[0]] + rest[0]] + rest[1..];
        assert ([[s[0]] + rest[0]] + rest[1..])[1..] == rest[1..];
        assert |rest| > 1 ==> [s[0]] + (rest[0] + ['/'] + Join(rest[1..], '/')) == [s[0]] + rest[0] + ['/'] + Join(rest[1..], '/');
      }
    }
  }

  /** The filter on lines is the filter on the paths they name. */
  lemma LinesArePaths(strip: string -> string, pruned: set<string>, roots: seq<Path>, lines: seq<string>, p: Path)
    requires PlainPath(p) && forall r :: r in roots ==> PlainPath(r)
    ensures (LineKept(pruned, Texts(roots), Posix(p)) && exists l :: l in lines && Posix(p) == strip(l))
            <==> Inventoried(Listed(strip, lines), pruned, roots, p)
  {
    LastCharacter(p);
    PrunedSegments(pruned, p);
    RootsAsText(roots, p);
    SplitJoin(p, '/');
    if p in Listed(strip, lines) {
      var l :| l in lines && strip(l) != "" && Split(strip(l), '/') == p;
      JoinSplit(strip(l));
    }
  }

  lemma RootsAsText(roots: seq<Path>, p: Path)
    requires PlainPath(p) && forall r :: r in roots ==> PlainPath(r)
    ensures (exists t :: t in Texts(roots) && IsWithin(Posix(p), t)) <==> exists r :: r in roots && r <= p
  {
    if t :| t in Texts(roots) && IsWithin(Posix(p), t) {
      var i :| 0 <= i < |roots| && Texts(roots)[i] == t;
      assert roots[i] in roots;
      WithinIffPrefix(p, roots[i]);
    }
    if r :| r in roots && r <= p {
      var i :| 0 <= i < |roots| && roots[i] == r;
      WithinIffPrefix(p, r);
      assert Texts(roots)[i] in Texts(roots) && IsWithin(Posix(p), Texts(roots)[i]);
    }
  }

  /** A file the walk of a root returns. */
  predicate Walked(repo: Node, pruned: set<string>, r: Path, p: Path) {
    && r < p
    && var base := Find(repo, r, true);
       && base.Some? && base.value.Dir?
       && FileBelow(base.value.entries, p[|r|..])
       && forall i :: |r| <= i < |p| - 1 ==> p[i] !in pruned
  }

  /** The path the report names: that of a walked file after resolving links. */
  ghost predicate Declared(repo: Node, pruned: set<string>, roots: seq<Path>, resolve: Resolution, p: Path) {
    exists r, q :: r in roots && Walked(repo, pruned, r, q) && resolve(q) == Some(p)
  }

  /** `path.resolve().relative_to(ROOT)`; `None` when the resolved path lies outside. */
  type Resolution = Path -> Option<Path>

  datatype ValueError = ValueError

  ghost predicate DistinctNode(n: Node) {
    n.Dir? ==> Distinct(n.entries)
  }

  lemma {:induction false} FindDistinct(n: Node, p: Path, follow: bool)
    requires DistinctNode(n)
    ensures Find(n, p, follow).Some? ==> DistinctNode(Find(n, p, follow).value)
    decreases p
  {
    if p != [] && n.Dir? && (follow || !n.link) && Child(n.entries, p[0]).Some? {
      MemberOfChild(n.entries, p[0]);
      FindDistinct(Child(n.entries, p[0]).value, p[1..], follow);
    }
  }

  ghost predicate AllInside(repo: Node, pruned: set<string>, roots: seq<Path>, resolve: Resolution) {
    forall r, q :: r in roots && Walked(repo, pruned, r, q) ==> resolve(q).Some?
  }

  /** The declared paths: the walks of all roots together, with links resolved. */
  method DeclaredPaths(repo: Node, pruned: set<string>, roots: seq<Path>, resolve: Resolution)
    returns (result: Result<set<Path>, ValueError>)
    requires DistinctNode(repo)
    ensures result.Success? <==> AllInside(repo, pruned, roots, resolve)
    ensures result.Success? ==> forall p :: p in result.value <==> Declared(repo, pruned, roots, resolve, p)
  {
    var paths := {};
    var config := Config(pruned, _ => true);
    for i := 0 to |roots|
      invariant AllInside(repo, pruned, roots[..i], resolve)
      invariant forall p :: p in paths <==> Declared(repo, pruned, roots[..i], resolve, p)
    {
      var r := roots[i];
      assert roots[..i + 1] == roots[..i] + [r];
      var files := WalkFiles(config, Find(repo, r, true), r);
      forall p ensures p in files <==> Walked(repo, pruned, r, p) {
        WalkedIffReturned(repo, config, r, files, p);
      }
      if exists f :: f in files && resolve(f).None? {
        return Failure(ValueError);
      }
      var more := set f | f in files :: resolve(f).value;
      paths := paths + more;
    }
    assert roots[..|roots|] == roots;
    return Success(paths);
  }

  lemma WalkedIffReturned(repo: Node, config: Config, r: Path, files: seq<Path>, p: Path)
    requires DistinctNode(repo) && forall s :: config.keep(s)
    requires Find(repo, r, true).None? || Find(repo, r, true).value.File? ==> files == []
    requires Find(repo, r, true).Some? && Find(repo, r, true).value.Dir? ==>
               files == Flat(config, |r|, AllFiles(Find(repo, r, true).value.entries, r))
    ensures p in files <==> Walked(repo, config.pruned, r, p)
  {
    var base := Find(repo, r, true);
    if base.Some? && base.value.Dir? {
      FindDistinct(repo, r, true);
      ListedIffBelow(base.value.entries, r, p);
      AllIsDeeper(base.value.entries, r);
    }
  }

  /* ---- When the two agree ---- */

  lemma {:induction false} FindAppend(n: Node, p: Path, q: Path, follow: bool)
    ensures Find(n, p + q, follow) == if Find(n, p, follow).None? then None else Find(Find(n, p, follow).value, q, follow)
    decreases p
  {
    if p == [] {
      assert p + q == q;
    } else if n.Dir? && (follow || !n.link) && Child(n.entries, p[0]).Some? {
      assert (p + q)[1..] == p[1..] + q;
      FindAppend(Child(n.entries, p[0]).value, p[1..], q, follow);
    }
  }

  lemma {:induction false} FindFollows(n: Node, p: Path)
    ensures Find(n, p, false).Some? ==> Find(n, p, true) == Find(n, p, false)
    decreases p
  {
    if p != [] && n.Dir? && !n.link && Child(n.entries, p[0]).Some? {
      FindFollows(Child(n.entries, p[0]).value, p[1..]);
    }
  }

  /** A root that is a real directory, reached through real directories. */
  predicate RealRoot(repo: Node, r: Path) {
    var base := Find(repo, r, false);
    base.Some? && base.value.Dir? && !base.value.link
  }

  /** Under a real root, being walked is being a file of the repository with no pruned directory below the root. */
  lemma WalkedFromReal(repo: Node, pruned: set<string>, r: Path, p: Path)
    requires RealRoot(repo, r) && r < p
    ensures Walked(repo, pruned, r, p) <==>
              IsFile(Find(repo, p, false)) && forall i :: |r| <= i < |p| - 1 ==> p[i] !in pruned
  {
    FindFollows(repo, r);
    FindAppend(repo, r, p[|r|..], false);
    assert p == r + p[|r|..];
  }

  /** A tracked path below a root passes only real directories on the way, the root included. */
  lemma TrackedBelow(repo: Node, r: Path, p: Path)
    requires r < p && Find(repo, p, false).Some?
    ensures RealRoot(repo, r)
  {
    FindAppend(repo, r, p[|r|..], false);
    assert p == r + p[|r|..];
  }

  /** A file that is not a link, reached without passing through one. */
  predicate Regular(repo: Node, p: Path) {
    Find(repo, p, false) == Some(File(false))
  }

  /** Resolving leaves regular files where they are. */
  ghost predicate Resolves(repo: Node, resolve: Resolution) {
    forall q :: Regular(repo, q) ==> resolve(q) == Some(q)
  }

  /** Every regular file walked is listed and carries no pruned name, of its own or in its root; walked links lead to
      what is kept of the listing. */
  ghost predicate WalksStayListed(repo: Node, listed: set<Path>, pruned: set<string>, roots: seq<Path>, resolve: Resolution) {
    forall r, q :: r in roots && Walked(repo, pruned, r, q) ==>
                     if Regular(repo, q) then q in listed && Unpruned(pruned, r) && q[|q| - 1] !in pruned
                     else resolve(q).Some? ==> Inventoried(listed, pruned, roots, resolve(q).value)
  }

  ghost predicate ResolvedTo(repo: Node, pruned: set<string>, roots: seq<Path>, resolve: Resolution, p: Path) {
    exists r, q :: r in roots && Walked(repo, pruned, r, q) && !Regular(repo, q) && resolve(q) == Some(p)
  }

  /** Every path kept of the listing is a regular file on disk properly below some root, or a walked link leads to it. */
  ghost predicate ListedIsWalkable(repo: Node, listed: set<Path>, pruned: set<string>, roots: seq<Path>, resolve: Resolution) {
    forall p :: Inventoried(listed, pruned, roots, p) ==>
                  (Regular(repo, p) && exists r :: r in roots && r < p) || ResolvedTo(repo, pruned, roots, resolve, p)
  }

  ghost predicate Agree(repo: Node, listed: set<Path>, pruned: set<string>, roots: seq<Path>, resolve: Resolution) {
    forall p :: Declared(repo, pruned, roots, resolve, p) <==> Inventoried(listed, pruned, roots, p)
  }

  lemma WalkedRegular(repo: Node, listed: set<Path>, pruned: set<string>, roots: seq<Path>, r: Path, q: Path)
    requires r in roots && Walked(repo, pruned, r, q)
    ensures Inventoried(listed, pruned, roots, q) <==> q in listed && Unpruned(pruned, r) && q[|q| - 1] !in pruned
  {
    if Unpruned(pruned, r) && q[|q| - 1] !in pruned {
      forall name | name in q ensures name !in pruned {
        var i :| 0 <= i < |q| && q[i] == name;
        assert i < |r| ==> r[i] == q[i] && r[i] in r;
      }
    }
    if Inventoried(listed, pruned, roots, q) {
      forall name | name in r ensures name !in pruned {
        var i :| 0 <= i < |r| && r[i] == name;
        assert q[i] in q;
      }
    }
  }

  lemma BelowIsWalked(repo: Node, pruned: set<string>, r: Path, p: Path)
    requires Unpruned(pruned, p) && Regular(repo, p) && r < p
    ensures Walked(repo, pruned, r, p)
  {
    TrackedBelow(repo, r, p);
    WalkedFromReal(repo, pruned, r, p);
    assert forall i :: 0 <= i < |p| ==> p[i] in p;
  }

  lemma DeclaredIsInventoried(repo: Node, listed: set<Path>, pruned: set<string>, roots: seq<Path>, resolve: Resolution, p: Path)
    requires Resolves(repo, resolve) && WalksStayListed(repo, listed, pruned, roots, resolve)
    requires Declared(repo, pruned, roots, resolve, p)
    ensures Inventoried(listed, pruned, roots, p)
  {
    var r, q :| r in roots && Walked(repo, pruned, r, q) && resolve(q) == Some(p);
    WalkedRegular(repo, listed, pruned, roots, r, q);
  }

  lemma InventoriedIsDeclared(repo: Node, listed: set<Path>, pruned: set<string>, roots: seq<Path>, resolve: Resolution, p: Path)
    requires Resolves(repo, resolve) && ListedIsWalkable(repo, listed, pruned, roots, resolve)
    requires Inventoried(listed, pruned, roots, p)
    ensures Declared(repo, pruned, roots, resolve, p)
  {
    if !ResolvedTo(repo, pruned, roots, resolve, p) {
      var r :| r in roots && r < p;
      BelowIsWalked(repo, pruned, r, p);
      assert resolve(p) == Some(p);
    }
  }

  lemma AgreementForces(repo: Node, listed: set<Path>, pruned: set<string>, roots: seq<Path>, resolve: Resolution)
    requires Resolves(repo, resolve) && Agree(repo, listed, pruned, roots, resolve)
    ensures WalksStayListed(repo, listed, pruned, roots, resolve) && ListedIsWalkable(repo, listed, pruned, roots, resolve)
  {
    forall r, q | r in roots && Walked(repo, pruned, r, q)
      ensures if Regular(repo, q) then q in listed && Unpruned(pruned, r) && q[|q| - 1] !in pruned
              else resolve(q).Some? ==> Inventoried(listed, pruned, roots, resolve(q).value)
    {
      WalkedRegular(repo, listed, pruned, roots, r, q);
      if resolve(q).Some? {
        assert Declared(repo, pruned, roots, resolve, resolve(q).value);
      }
    }
    forall p | Inventoried(listed, pruned, roots, p)
      ensures (Regular(repo, p) && exists r :: r in roots && r < p) || ResolvedTo(repo, pruned, roots, resolve, p)
    {
      var r, q :| r in roots && Walked(repo, pruned, r, q) && resolve(q) == Some(p);
      assert Regular(repo, q) ==> q == p && r < p;
    }
  }

  /** The walks of the declared roots equal the filtered listing exactly when every regular file walked is listed and
      carries no pruned name, walked links lead to kept paths, and every kept path is a regular file on disk below some
      root or led to by a walked link. */
  lemma InventoriesAgreeIff(repo: Node, listed: set<Path>, pruned: set<string>, roots: seq<Path>, resolve: Resolution)
    requires Resolves(repo, resolve)
    ensures Agree(repo, listed, pruned, roots, resolve)
            <==> && WalksStayListed(repo, listed, pruned, roots, resolve)
                 && ListedIsWalkable(repo, listed, pruned, roots, resolve)
  {
    if WalksStayListed(repo, listed, pruned, roots, resolve) && ListedIsWalkable(repo, listed, pruned, roots, resolve) {
      forall p ensures Declared(repo, pruned, roots, resolve, p) <==> Inventoried(listed, pruned, roots, p) {
        if Declared(repo, pruned, roots, resolve, p) {
          DeclaredIsInventoried(repo, listed, pruned, roots, resolve, p);
        }
        if Inventoried(listed, pruned, roots, p) {
          InventoriedIsDeclared(repo, listed, pruned, roots, resolve, p);
        }
      }
    }
    if Agree(repo, listed, pruned, roots, resolve) {
      AgreementForces(repo, listed, pruned, roots, resolve);
    }
  }

  /** In particular they agree when no walked file is ignored or has a pruned name, everything kept of the listing is a
      regular file on disk, no root component is pruned and no root is listed. */
  lemma CleanTreesAgree(repo: Node, listed: set<Path>, pruned: set<string>, roots: seq<Path>, resolve: Resolution)
    requires Resolves(repo, resolve)
    requires forall r, q :: r in roots && Walked(repo, pruned, r, q) ==> q in listed && q[|q| - 1] !in pruned
    requires forall p :: Inventoried(listed, pruned, roots, p) ==> Regular(repo, p)
    requires forall r :: r in roots ==> Unpruned(pruned, r) && r !in listed
    ensures Agree(repo, listed, pruned, roots, resolve)
  {
    assert WalksStayListed(repo, listed, pruned, roots, resolve) by {
      forall r, q | r in roots && Walked(repo, pruned, r, q)
        ensures Regular(repo, q) && q in listed && Unpruned(pruned, r) && q[|q| - 1] !in pruned
      {
        WalkedRegular(repo, listed, pruned, roots, r, q);
      }
    }
    assert ListedIsWalkable(repo, listed, pruned, roots, resolve) by {
      forall p | Inventoried(listed, pruned, roots, p) ensures Regular(repo, p) && exists r :: r in roots && r < p {
        var r :| r in roots && r <= p;
        assert r != p;
      }
    }
    InventoriesAgreeIff(repo, listed, pruned, roots, resolve);
  }

  /** One ignored file below a root, such as `tools/.env`, is walked and not listed, so the inventories differ. */
  lemma IgnoredFileDiffers(resolve: Resolution)
    ensures var repo := Dir(false, [Entry("tools", Dir(false, [Entry(".env", File(false))]))]);
            Resolves(repo, resolve) ==> !Agree(repo, {}, {}, [["tools"]], resolve)
  {
    var tools := Dir(false, [Entry(".env", File(false))]);
    var repo := Dir(false, [Entry("tools", tools)]);
    var r, q := ["tools"], ["tools", ".env"];
    assert q[1..] == [".env"] && r[1..] == [] && [".env"][1..] == [];
    assert Child(tools.entries, ".env") == Some(File(false));
    assert Find(repo, r, true) == Some(tools) && Find(tools, [".env"], false) == Some(File(false));
    assert Regular(repo, q) && Walked(repo, {}, r, q) && r in [r];
    if Resolves(repo, resolve) {
      InventoriesAgreeIff(repo, {}, {}, [r], resolve);
    }
  }

  /** A listed file below a root that is gone from disk is kept and not walked, so the inventories differ unless a walked
      link still leads to it. */
  lemma DeletedFileDiffers(repo: Node, listed: set<Path>, pruned: set<string>, roots: seq<Path>, resolve: Resolution, p: Path)
    requires Resolves(repo, resolve) && Inventoried(listed, pruned, roots, p) && Find(repo, p, false).None?
    ensures Agree(repo, listed, pruned, roots, resolve) ==> ResolvedTo(repo, pruned, roots, resolve, p)
  {
    InventoriesAgreeIff(repo, listed, pruned, roots, resolve);
  }
}
