/** Walking a directory tree with pruning in place, and what the walk returns. */
module TreeWalk {
  import opened Wrappers

  /** A directory or anything else, possibly behind a symbolic link. */
  datatype Node = File(link: bool) | Dir(link: bool, entries: seq<Entry>)

  datatype Entry = Entry(name: string, node: Node)

  /** The components of a path. */
  type Path = seq<string>

  /** The directory names to prune, and the file names to keep. */
  datatype Config = Config(pruned: set<string>, keep: string -> bool)

  /* ---- The flat listing and its filter ---- */

  function FilesHere(entries: seq<Entry>, at: Path): seq<Path> {
    if entries == [] then []
    else (if entries[0].node.File? then [at + [entries[0].name]] else []) + FilesHere(entries[1..], at)
  }

  /** Every file of a directory and of the directories below it that are not links, in the order of `os.walk`. */
  function AllFiles(entries: seq<Entry>, at: Path): seq<Path>
    decreases entries, 1
  {
    FilesHere(entries, at) + FilesBelow(entries, at)
  }

  function FilesBelow(entries: seq<Entry>, at: Path): seq<Path>
    decreases entries, 0
  {
    if entries == [] then []
    else
      var e := entries[0];
      (if e.node.Dir? && !e.node.link then AllFiles(e.node.entries, at + [e.name]) else []) + FilesBelow(entries[1..], at)
  }

  /** No directory on the way from the root, `n` components deep, to the file is pruned, and its name is kept. */
  predicate Wanted(config: Config, n: nat, p: Path) {
    && p != []
    && (forall i :: n <= i < |p| - 1 ==> p[i] !in config.pruned)
    && config.keep(p[|p| - 1])
  }

  predicate Deeper(ps: seq<Path>, at: Path) {
    forall p :: p in ps ==> at < p
  }

  /** The wanted paths, in order. */
  function Flat(config: Config, n: nat, ps: seq<Path>): (r: seq<Path>)
    ensures forall p :: p in r <==> p in ps && Wanted(config, n, p)
  {
    if ps == [] then []
    else (if Wanted(config, n, ps[0]) then [ps[0]] else []) + Flat(config, n, ps[1..])
  }

  lemma {:induction false} FlatAppend(config: Config, n: nat, ps: seq<Path>, qs: seq<Path>)
    ensures Flat(config, n, ps + qs) == Flat(config, n, ps) + Flat(config, n, qs)
  {
    if ps == [] {
      assert ps + qs == qs;
    } else {
      assert (ps + qs)[1..] == ps[1..] + qs;
      FlatAppend(config, n, ps[1..], qs);
    }
  }

  /* ---- The pruned walk ---- */

  function KeptHere(config: Config, entries: seq<Entry>, at: Path): seq<Path> {
    if entries == [] then []
    else
      (if entries[0].node.File? && config.keep(entries[0].name) then [at + [entries[0].name]] else [])
      + KeptHere(config, entries[1..], at)
  }

  /** The walk descends into this entry. */
  predicate Descends(config: Config, e: Entry) {
    e.node.Dir? && !e.node.link && e.name !in config.pruned
  }

  function Walk(config: Config, entries: seq<Entry>, at: Path): seq<Path>
    decreases entries, 1
  {
    KeptHere(config, entries, at) + WalkBelow(config, entries, at)
  }

  function WalkBelow(config: Config, entries: seq<Entry>, at: Path): seq<Path>
    decreases entries, 0
  {
    if entries == [] then []
    else
      var e := entries[0];
      (if Descends(config, e) then Walk(config, e.node.entries, at + [e.name]) else [])
      + WalkBelow(config, entries[1..], at)
  }

  lemma {:induction false} HereIsDeeper(entries: seq<Entry>, at: Path)
    ensures Deeper(FilesHere(entries, at), at)
  {
    if entries == [] {
    } else {
      HereIsDeeper(entries[1..], at);
    }
  }

  lemma {:induction false} AllIsDeeper(entries: seq<Entry>, at: Path)
    ensures Deeper(AllFiles(entries, at), at)
    decreases entries, 1
  {
    HereIsDeeper(entries, at);
    BelowIsDeeper(entries, at);
  }

  lemma {:induction false} BelowIsDeeper(entries: seq<Entry>, at: Path)
    ensures Deeper(FilesBelow(entries, at), at)
    decreases entries, 0
  {
    if entries == [] {
    } else {
      var e := entries[0];
      BelowIsDeeper(entries[1..], at);
      if e.node.Dir? && !e.node.link {
        AllIsDeeper(e.node.entries, at + [e.name]);
        forall p | p in AllFiles(e.node.entries, at + [e.name]) ensures at < p {
          assert at + [e.name] < p;
          assert at == (at + [e.name])[..|at|] == p[..|at|];
        }
      }
    }
  }

  ghost predicate OpenFrom(config: Config, n: nat, at: Path) {
    n <= |at| && forall i :: n <= i < |at| ==> at[i] !in config.pruned
  }

  lemma {:induction false} HereFiltered(config: Config, n: nat, entries: seq<Entry>, at: Path)
    requires OpenFrom(config, n, at)
    ensures KeptHere(config, entries, at) == Flat(config, n, FilesHere(entries, at))
  {
    HereIsDeeper(entries, at);
    if entries == [] {
    } else {
      HereFiltered(config, n, entries[1..], at);
      var here := if entries[0].node.File? then [at + [entries[0].name]] else [];
      FlatAppend(config, n, here, FilesHere(entries[1..], at));
    }
  }

  lemma {:induction false} NothingThroughPruned(config: Config, n: nat, at: Path, name: string, ps: seq<Path>)
    requires n <= |at| && name in config.pruned && Deeper(ps, at + [name])
    ensures Flat(config, n, ps) == []
  {
    if ps == [] {
    } else {
      assert ps[0] in ps && forall p :: p in ps[1..] ==> p in ps;
      assert ps[0][|at|] == (at + [name])[|at|] == name;
      NothingThroughPruned(config, n, at, name, ps[1..]);
    }
  }

  /** Pruning in place and filtering the flat listing afterwards give the same list, in the same order. */
  lemma {:induction false} WalkIsFlat(config: Config, n: nat, entries: seq<Entry>, at: Path)
    requires OpenFrom(config, n, at)
    ensures Walk(config, entries, at) == Flat(config, n, AllFiles(entries, at))
    decreases entries, 1
  {
    AllIsDeeper(entries, at);
    HereFiltered(config, n, entries, at);
    WalkBelowIsFlat(config, n, entries, at);
    FlatAppend(config, n, FilesHere(entries, at), FilesBelow(entries, at));
  }

  lemma {:induction false} WalkBelowIsFlat(config: Config, n: nat, entries: seq<Entry>, at: Path)
    requires OpenFrom(config, n, at)
    ensures WalkBelow(config, entries, at) == Flat(config, n, FilesBelow(entries, at))
    decreases entries, 0
  {
    BelowIsDeeper(entries, at);
    if entries == [] {
    } else {
      var e := entries[0];
      WalkBelowIsFlat(config, n, entries[1..], at);
      var below := if e.node.Dir? && !e.node.link then AllFiles(e.node.entries, at + [e.name]) else [];
      FlatAppend(config, n, below, FilesBelow(entries[1..], at));
      if e.node.Dir? && !e.node.link {
        if e.name in config.pruned {
          AllIsDeeper(e.node.entries, at + [e.name]);
          NothingThroughPruned(config, n, at, e.name, below);
        } else {
          WalkIsFlat(config, n, e.node.entries, at + [e.name]);
        }
      }
    }
  }

  /* ---- The loop ---- */

  /** A directory still to be visited. */
  datatype Frame = Frame(at: Path, entries: seq<Entry>)

  function Pending(config: Config, frames: seq<Frame>): seq<Path> {
    if frames == [] then [] else Walk(config, frames[0].entries, frames[0].at) + Pending(config, frames[1..])
  }

  lemma {:induction false} PendingAppend(config: Config, frames: seq<Frame>, more: seq<Frame>)
    ensures Pending(config, frames + more) == Pending(config, frames) + Pending(config, more)
  {
    if frames == [] {
      assert frames + more == more;
    } else {
      assert (frames + more)[1..] == frames[1..] + more;
      PendingAppend(config, frames[1..], more);
    }
  }

  function Weight(entries: seq<Entry>): nat
    decreases entries
  {
    if entries == [] then 1
    else (if entries[0].node.Dir? then Weight(entries[0].node.entries) else 0) + Weight(entries[1..])
  }

  function TotalWeight(frames: seq<Frame>): nat {
    if frames == [] then 0 else Weight(frames[0].entries) + TotalWeight(frames[1..])
  }

  lemma {:induction false} WeightAppend(frames: seq<Frame>, more: seq<Frame>)
    ensures TotalWeight(frames + more) == TotalWeight(frames) + TotalWeight(more)
  {
    if frames == [] {
      assert frames + more == more;
    } else {
      assert (frames + more)[1..] == frames[1..] + more;
      WeightAppend(frames[1..], more);
    }
  }

  /** What `os.walk` yields for a directory: the subdirectories, links to directories among them, and the rest. */
  function Subdirectories(entries: seq<Entry>): seq<Entry> {
    if entries == [] then []
    else (if entries[0].node.Dir? then [entries[0]] else []) + Subdirectories(entries[1..])
  }

  function Names(entries: seq<Entry>): seq<string> {
    if entries == [] then []
    else (if entries[0].node.File? then [entries[0].name] else []) + Names(entries[1..])
  }

  /** `dirs[:] = [name for name in dirs if name not in PRUNE_DIRS]`. */
  function Prune(config: Config, dirs: seq<Entry>): seq<Entry> {
    if dirs == [] then []
    else (if dirs[0].name in config.pruned then [] else [dirs[0]]) + Prune(config, dirs[1..])
  }

  /** The visits `os.walk` schedules for what is left of the list: links are not followed. */
  function Visits(dirs: seq<Entry>, at: Path): seq<Frame>
    requires forall e :: e in dirs ==> e.node.Dir?
  {
    if dirs == [] then []
    else (if dirs[0].node.link then [] else [Frame(at + [dirs[0].name], dirs[0].node.entries)]) + Visits(dirs[1..], at)
  }

  lemma {:induction false} DirectoriesOnly(config: Config, entries: seq<Entry>)
    ensures forall e :: e in Prune(config, Subdirectories(entries)) ==> e.node.Dir?
  {
    if entries == [] {
    } else {
      DirectoriesOnly(config, entries[1..]);
      PruneHead(config, entries);
    }
  }

  lemma PruneHead(config: Config, entries: seq<Entry>)
    requires entries != []
    ensures Prune(config, Subdirectories(entries))
            == (if entries[0].node.Dir? && entries[0].name !in config.pruned then [entries[0]] else [])
               + Prune(config, Subdirectories(entries[1..]))
  {
    var rest := Subdirectories(entries[1..]);
    if entries[0].node.Dir? {
      assert Subdirectories(entries) == [entries[0]] + rest;
      assert ([entries[0]] + rest)[1..] == rest;
    } else {
      assert Subdirectories(entries) == rest;
    }
  }

  lemma {:induction false} VisitsWalkBelow(config: Config, entries: seq<Entry>, at: Path)
    ensures forall e :: e in Prune(config, Subdirectories(entries)) ==> e.node.Dir?
    ensures Pending(config, Visits(Prune(config, Subdirectories(entries)), at)) == WalkBelow(config, entries, at)
    ensures TotalWeight(Visits(Prune(config, Subdirectories(entries)), at)) < Weight(entries)
    decreases entries
  {
    DirectoriesOnly(config, entries);
    if entries == [] {
    } else {
      var e := entries[0];
      VisitsWalkBelow(config, entries[1..], at);
      PruneHead(config, entries);
      var rest := Prune(config, Subdirectories(entries[1..]));
      if e.node.Dir? && e.name !in config.pruned {
        assert ([e] + rest)[1..] == rest;
        if !e.node.link {
          var f := Frame(at + [e.name], e.node.entries);
          assert ([f] + Visits(rest, at))[1..] == Visits(rest, at);
        } else {
          assert [] + Visits(rest, at) == Visits(rest, at);
        }
      } else {
        assert [] + rest == rest;
      }
    }
  }

  /** The files of one visit: `for name in names: ... files.append(path)`. */
  method AppendFiles(config: Config, entries: seq<Entry>, at: Path, files: seq<Path>) returns (more: seq<Path>)
    ensures more == files + KeptHere(config, entries, at)
  {
    var names := Names(entries);
    more := files;
    ghost var rest := entries;
    for i := 0 to |names|
      invariant names[i..] == Names(rest)
      invariant more + KeptHere(config, rest, at) == files + KeptHere(config, entries, at)
    {
      rest := SkipToFile(config, rest, at);
      if config.keep(names[i]) {
        more := more + [at + [names[i]]];
      }
      rest := rest[1..];
      assert names[i..][1..] == names[i + 1..];
    }
    NoNamesNoFiles(config, rest, at);
  }

  /** From the first file on, a list of entries yields the same names and files. */
  ghost function SkipToFile(config: Config, entries: seq<Entry>, at: Path): (rest: seq<Entry>)
    requires Names(entries) != []
    ensures rest != [] && rest[0].node.File?
    ensures Names(rest) == Names(entries) && KeptHere(config, rest, at) == KeptHere(config, entries, at)
    ensures Names(rest) == [rest[0].name] + Names(rest[1..])
  {
    if entries[0].node.File? then entries else SkipToFile(config, entries[1..], at)
  }

  lemma {:induction false} NoNamesNoFiles(config: Config, entries: seq<Entry>, at: Path)
    requires Names(entries) == []
    ensures KeptHere(config, entries, at) == []
  {
    if entries == [] {
    } else {
      NoNamesNoFiles(config, entries[1..], at);
    }
  }

  /** Visiting a directory trades it for its files and the visits it leaves. */
  lemma NextVisit(config: Config, top: Frame, rest: seq<Frame>, visits: seq<Frame>)
    requires Pending(config, visits) == WalkBelow(config, top.entries, top.at)
    requires TotalWeight(visits) < Weight(top.entries)
    ensures Pending(config, [top] + rest) == KeptHere(config, top.entries, top.at) + Pending(config, visits + rest)
    ensures TotalWeight(visits + rest) < TotalWeight([top] + rest)
  {
    assert ([top] + rest)[1..] == rest;
    PendingAppend(config, visits, rest);
    WeightAppend(visits, rest);
    var here, below, after := KeptHere(config, top.entries, top.at), WalkBelow(config, top.entries, top.at), Pending(config, rest);
    assert (here + below) + after == here + (below + after);
  }

  /** One turn of the loop: prune the subdirectories in place, append the files, schedule what is left. */
  method Visit(config: Config, top: Frame, rest: seq<Frame>, files: seq<Path>) returns (more: seq<Path>, stack: seq<Frame>)
    ensures more + Pending(config, stack) == files + Pending(config, [top] + rest)
    ensures TotalWeight(stack) < TotalWeight([top] + rest)
  {
    var dirs := Prune(config, Subdirectories(top.entries));
    VisitsWalkBelow(config, top.entries, top.at);
    var visits := Visits(dirs, top.at);
    NextVisit(config, top, rest, visits);
    more := AppendFiles(config, top.entries, top.at, files);
    stack := visits + rest;
    assert more + Pending(config, stack) == files + (KeptHere(config, top.entries, top.at) + Pending(config, stack));
  }

  /** `walk_files`: the walk, pruned while it runs, returns what the flat filter keeps. */
  method WalkFiles(config: Config, root: Option<Node>, at: Path) returns (files: seq<Path>)
    ensures root.None? || root.value.File? ==> files == []
    ensures root.Some? && root.value.Dir? ==> files == Flat(config, |at|, AllFiles(root.value.entries, at))
  {
    files := [];
    if root.None? || root.value.File? {
      return;
    }
    var stack := [Frame(at, root.value.entries)];
    while stack != []
      invariant files + Pending(config, stack) == Walk(config, root.value.entries, at)
      decreases TotalWeight(stack)
    {
      assert stack == [stack[0]] + stack[1..];
      files, stack := Visit(config, stack[0], stack[1..], files);
    }
    WalkIsFlat(config, |at|, root.value.entries, at);
  }
}
