/** The commits a remote exposes through proof-anchor tags, read from the lines of `git ls-remote --tags`. */
module ProofAnchors {
  import opened Wrappers
  import opened Text

  const ANCHOR := "refs/tags/proof-anchor-"
  const PEEL := "^{}"

  predicate EndsWith(s: string, suffix: string) {
    |suffix| <= |s| && s[|s| - |suffix|..] == suffix
  }

  /** One line of the listing, as the loop sorts it. */
  datatype Line = Ignored | Direct(ref: string, sha: string) | Peeled(ref: string, sha: string)

  function ParseLine(line: string): Line {
    var parts := Split(line, '\t');
    if |parts| != 2 || !(ANCHOR <= parts[1]) then Ignored
    else if EndsWith(parts[1], PEEL) then Peeled(parts[1][..|parts[1]| - 3], parts[0])
    else Direct(parts[1], parts[0])
  }

  /** The last commit some lines peel a reference to. */
  function LastPeeled(lines: seq<string>, ref: string): Option<string> {
    if lines == [] then None
    else
      var last := ParseLine(lines[|lines| - 1]);
      if last.Peeled? && last.ref == ref then Some(last.sha) else LastPeeled(lines[..|lines| - 1], ref)
  }

  /** The last object some lines name directly for a reference. */
  function LastDirect(lines: seq<string>, ref: string): Option<string> {
    if lines == [] then None
    else
      var last := ParseLine(lines[|lines| - 1]);
      if last.Direct? && last.ref == ref then Some(last.sha) else LastDirect(lines[..|lines| - 1], ref)
  }

  /** The commit a reference targets: what it peels to if anything, else the object it names. */
  function Target(lines: seq<string>, ref: string): Option<string> {
    if LastPeeled(lines, ref).Some? then LastPeeled(lines, ref) else LastDirect(lines, ref)
  }

  ghost predicate Holds(m: map<string, string>, lookup: string -> Option<string>) {
    forall ref :: lookup(ref) == if ref in m then Some(m[ref]) else None
  }

  ghost predicate Exposes(lines: seq<string>, commit: string) {
    exists ref :: Target(lines, ref) == Some(commit)
  }

  /** `remote_anchor_commits`; `reached` says the listing succeeded. */
  method RemoteAnchorCommits(reached: bool, lines: seq<string>) returns (commits: set<string>)
    ensures forall c :: c in commits <==> reached && Exposes(lines, c)
  {
    if !reached {
      return {};
    }
    var direct: map<string, string> := map[];
    var peeled: map<string, string> := map[];
    for i := 0 to |lines|
      invariant Holds(direct, ref => LastDirect(lines[..i], ref))
      invariant Holds(peeled, ref => LastPeeled(lines[..i], ref))
    {
      assert lines[..i + 1][..i] == lines[..i];
      match ParseLine(lines[i])
      case Ignored =>
      case Direct(ref, sha) => direct := direct[ref := sha];
      case Peeled(ref, sha) => peeled := peeled[ref := sha];
    }
    assert lines[..|lines|] == lines;
    commits := peeled.Values + set ref | ref in direct && ref !in peeled :: direct[ref];
    AllTargets(lines, direct, peeled, commits);
  }

  lemma AllTargets(lines: seq<string>, direct: map<string, string>, peeled: map<string, string>, commits: set<string>)
    requires forall ref :: LastDirect(lines, ref) == if ref in direct then Some(direct[ref]) else None
    requires forall ref :: LastPeeled(lines, ref) == if ref in peeled then Some(peeled[ref]) else None
    requires commits == peeled.Values + set ref | ref in direct && ref !in peeled :: direct[ref]
    ensures forall c :: c in commits <==> Exposes(lines, c)
  {
    forall c | c in commits ensures Exposes(lines, c) {
      if c in peeled.Values {
        var ref :| ref in peeled && peeled[ref] == c;
        assert Target(lines, ref) == Some(c);
      } else {
        var ref :| ref in direct && ref !in peeled && direct[ref] == c;
        assert Target(lines, ref) == Some(c);
      }
    }
    forall c | Exposes(lines, c) ensures c in commits {
      var ref :| Target(lines, ref) == Some(c);
      assert ref in peeled || ref in direct;
    }
  }

  /* ---- What git prints ---- */

  /** A tag: annotated tags have an object of their own, lightweight ones name the commit directly. */
  datatype Tag = Tag(name: string, commit: string, own: Option<string>)

  function Ref(t: Tag): string {
    "refs/tags/" + t.name
  }

  function Shown(sha: string, ref: string): string {
    sha + "\t" + ref
  }

  /** The lines a tag contributes to the listing. */
  function Printed(t: Tag): set<string> {
    match t.own
    case None => {Shown(t.commit, Ref(t))}
    case Some(o) => {Shown(o, Ref(t)), Shown(t.commit, Ref(t) + "^{}")}
  }

  /** Git allows no tab in a reference or object name, and no `^` in a reference name. */
  predicate Printable(t: Tag) {
    && '\t' !in t.name && '\t' !in t.commit && (t.own.Some? ==> '\t' !in t.own.value)
    && !EndsWith(t.name, PEEL)
  }

  predicate IsAnchor(t: Tag) {
    "proof-anchor-" <= t.name
  }

  lemma AnchorIff(t: Tag)
    ensures IsAnchor(t) <==> ANCHOR <= Ref(t)
  {
    var tags, name := "refs/tags/", "proof-anchor-";
    assert ANCHOR == tags + name;
    if IsAnchor(t) {
      assert t.name == name + t.name[|name|..];
      assert Ref(t) == ANCHOR + t.name[|name|..];
    }
    if ANCHOR <= Ref(t) {
      assert t.name == Ref(t)[|tags|..] && name == ANCHOR[|tags|..];
      assert t.name[..|name|] == Ref(t)[..|ANCHOR|][|tags|..] == name;
    }
  }

  /** The lines are those of the tags, in any order. */
  ghost predicate Lists(lines: seq<string>, tags: set<Tag>) {
    && (forall t :: t in tags ==> Printable(t))
    && (forall t, u :: t in tags && u in tags && t.name == u.name ==> t == u)
    && (forall l :: l in lines ==> exists t :: t in tags && l in Printed(t))
    && (forall t, l :: t in tags && l in Printed(t) ==> l in lines)
  }

  lemma ParseShown(sha: string, ref: string)
    requires '\t' !in sha && '\t' !in ref
    ensures ParseLine(Shown(sha, ref)) == if !(ANCHOR <= ref) then Ignored
                                          else if EndsWith(ref, PEEL) then Peeled(ref[..|ref| - 3], sha)
                                          else Direct(ref, sha)
  {
    SplitAt(sha, '\t', ref);
    SplitWhole(ref, '\t');
    assert Shown(sha, ref) == sha + ['\t'] + ref;
  }

  lemma PeelInName(t: Tag)
    ensures EndsWith(Ref(t), PEEL) ==> EndsWith(t.name, PEEL)
  {
    var r := Ref(t);
    if EndsWith(r, PEEL) {
      assert r[|r| - 3] == PEEL[0] && r[|r| - 2] == PEEL[1] && r[|r| - 1] == PEEL[2];
      assert |t.name| >= 3;
      assert t.name[|t.name| - 3..] == r[|r| - 3..];
    }
  }

  lemma AnchorBeforePeel(r: string)
    ensures ANCHOR <= r + PEEL ==> ANCHOR <= r
  {
    assert forall i :: 0 <= i < |ANCHOR| ==> ANCHOR[i] != '^';
    if ANCHOR <= r + PEEL {
      assert (r + PEEL)[|r|] == '^';
      assert |ANCHOR| <= |r|;
      assert r == (r + PEEL)[..|r|];
    }
  }

  lemma PeelOfRef(t: Tag)
    requires Printable(t)
    ensures !EndsWith(Ref(t), PEEL) && EndsWith(Ref(t) + PEEL, PEEL)
    ensures (Ref(t) + PEEL)[..|Ref(t) + PEEL| - 3] == Ref(t)
    ensures ANCHOR <= Ref(t) + PEEL <==> IsAnchor(t)
  {
    PeelInName(t);
    AnchorBeforePeel(Ref(t));
    AnchorIff(t);
    assert Ref(t) + PEEL == Ref(t) + ['^', '{', '}'];
  }

  /** How the loop reads the lines of a tag. */
  lemma ParsePrinted(t: Tag, l: string)
    requires Printable(t) && l in Printed(t)
    ensures !IsAnchor(t) ==> ParseLine(l) == Ignored
    ensures IsAnchor(t) && t.own.None? ==> ParseLine(l) == Direct(Ref(t), t.commit)
    ensures IsAnchor(t) && t.own.Some? ==> ParseLine(l) in {Direct(Ref(t), t.own.value), Peeled(Ref(t), t.commit)}
    ensures t.own.Some? && IsAnchor(t) ==> ParseLine(Shown(t.commit, Ref(t) + PEEL)) == Peeled(Ref(t), t.commit)
  {
    PeelOfRef(t);
    ParseShown(t.commit, Ref(t));
    ParseShown(t.commit, Ref(t) + PEEL);
    if t.own.Some? {
      ParseShown(t.own.value, Ref(t));
    }
  }

  lemma {:induction false} LastPeeledFinds(lines: seq<string>, ref: string)
    ensures LastPeeled(lines, ref).Some? ==> exists l :: l in lines && ParseLine(l) == Peeled(ref, LastPeeled(lines, ref).value)
    ensures LastPeeled(lines, ref).None? ==> forall l :: l in lines && ParseLine(l).Peeled? ==> ParseLine(l).ref != ref
  {
    if lines == [] {
    } else {
      LastPeeledFinds(lines[..|lines| - 1], ref);
      assert lines == lines[..|lines| - 1] + [lines[|lines| - 1]];
    }
  }

  lemma {:induction false} LastDirectFinds(lines: seq<string>, ref: string)
    ensures LastDirect(lines, ref).Some? ==> exists l :: l in lines && ParseLine(l) == Direct(ref, LastDirect(lines, ref).value)
    ensures LastDirect(lines, ref).None? ==> forall l :: l in lines && ParseLine(l).Direct? ==> ParseLine(l).ref != ref
  {
    if lines == [] {
    } else {
      LastDirectFinds(lines[..|lines| - 1], ref);
      assert lines == lines[..|lines| - 1] + [lines[|lines| - 1]];
    }
  }

  /** The tag behind a line the loop keeps. */
  lemma TagBehind(lines: seq<string>, tags: set<Tag>, l: string) returns (t: Tag)
    requires Lists(lines, tags) && l in lines && !ParseLine(l).Ignored?
    ensures t in tags && IsAnchor(t) && Ref(t) == ParseLine(l).ref
    ensures ParseLine(l).sha == t.commit || (ParseLine(l).Direct? && t.own.Some?)
    ensures ParseLine(l).Peeled? ==> t.own.Some?
  {
    t :| t in tags && l in Printed(t);
    ParsePrinted(t, l);
  }

  lemma SameRef(tags: set<Tag>, t: Tag, u: Tag)
    requires forall t, u :: t in tags && u in tags && t.name == u.name ==> t == u
    requires t in tags && u in tags && Ref(t) == Ref(u)
    ensures t == u
  {
    assert t.name == Ref(t)[|"refs/tags/"|..] && u.name == Ref(u)[|"refs/tags/"|..];
  }

  /** The target of an anchor tag is its commit: never the tag object, whatever the order of the lines. */
  lemma TargetOfTag(lines: seq<string>, tags: set<Tag>, t: Tag)
    requires Lists(lines, tags) && t in tags && IsAnchor(t)
    ensures Target(lines, Ref(t)) == Some(t.commit)
  {
    LastPeeledFinds(lines, Ref(t));
    LastDirectFinds(lines, Ref(t));
    if t.own.Some? {
      var line := Shown(t.commit, Ref(t) + PEEL);
      ParsePrinted(t, line);
      assert line in lines;
      var l :| l in lines && ParseLine(l) == Peeled(Ref(t), LastPeeled(lines, Ref(t)).value);
      var u := TagBehind(lines, tags, l);
      SameRef(tags, t, u);
    } else {
      var line := Shown(t.commit, Ref(t));
      ParsePrinted(t, line);
      assert line in lines;
      NeverPeeled(lines, tags, t);
      var l :| l in lines && ParseLine(l) == Direct(Ref(t), LastDirect(lines, Ref(t)).value);
      var u := TagBehind(lines, tags, l);
      SameRef(tags, t, u);
    }
  }

  lemma NeverPeeled(lines: seq<string>, tags: set<Tag>, t: Tag)
    requires Lists(lines, tags) && t in tags && IsAnchor(t) && t.own.None?
    ensures LastPeeled(lines, Ref(t)).None?
  {
    LastPeeledFinds(lines, Ref(t));
    forall l | l in lines && ParseLine(l).Peeled? ensures ParseLine(l).ref != Ref(t) {
      var u := TagBehind(lines, tags, l);
      assert u != t;
      if Ref(u) == Ref(t) {
        SameRef(tags, t, u);
      }
    }
  }

  ghost predicate Anchored(tags: set<Tag>, commit: string) {
    exists t :: t in tags && IsAnchor(t) && t.commit == commit
  }

  /** The commits found are exactly the target commits of the anchor tags. */
  lemma ExposesExactlyAnchored(lines: seq<string>, tags: set<Tag>)
    requires Lists(lines, tags)
    ensures forall c :: Exposes(lines, c) <==> Anchored(tags, c)
  {
    forall c | Exposes(lines, c) ensures Anchored(tags, c) {
      var ref :| Target(lines, ref) == Some(c);
      LastPeeledFinds(lines, ref);
      LastDirectFinds(lines, ref);
      var l :| l in lines && !ParseLine(l).Ignored? && ParseLine(l).ref == ref;
      var t := TagBehind(lines, tags, l);
      TargetOfTag(lines, tags, t);
    }
    forall c | Anchored(tags, c) ensures Exposes(lines, c) {
      var t :| t in tags && IsAnchor(t) && t.commit == c;
      TargetOfTag(lines, tags, t);
    }
  }

  /** Renaming anchor tags, as a longer abbreviation does, turning them from lightweight into annotated and
      reordering the listing changes nothing exactly as long as they target the same commits. */
  lemma NamesDoNotMatter(lines: seq<string>, tags: set<Tag>, lines': seq<string>, tags': set<Tag>)
    requires Lists(lines, tags) && Lists(lines', tags')
    ensures (forall c :: Exposes(lines, c) <==> Exposes(lines', c)) <==> forall c :: Anchored(tags, c) <==> Anchored(tags', c)
  {
    ExposesExactlyAnchored(lines, tags);
    ExposesExactlyAnchored(lines', tags');
  }

  /* ---- Coverage of current main ---- */

  datatype Checkout = Checkout(branch: string, head: string, parent: string, remoteMain: string, racing: bool)

  /** The finding names the first nine characters of the head, and the parent when it was consulted. */
  datatype Missing = Missing(head: string, orParent: bool)

  function Shorten(sha: string): string {
    if |sha| <= 9 then sha else sha[..9]
  }

  /** `missing_anchor_message`. */
  function MissingAnchorMessage(at: Checkout, anchored: set<string>): Option<Missing> {
    if at.head in anchored then None
    else if at.racing && at.parent != "" && at.parent in anchored then None
    else Some(Missing(Shorten(at.head), at.racing))
  }

  /** `check_anchor_for_current_main`. */
  method CheckAnchorForCurrentMain(at: Checkout, reached: bool, lines: seq<string>, ghost tags: set<Tag>)
    returns (finding: Option<Missing>)
    requires Lists(lines, tags)
    ensures finding.Some? <==>
              && at.head != "" && at.branch == "main" && at.remoteMain == at.head
              && (reached ==> !Anchored(tags, at.head) && (at.racing && at.parent != "" ==> !Anchored(tags, at.parent)))
    ensures finding.Some? ==>
              && finding.value.head <= at.head && |finding.value.head| == (if |at.head| < 9 then |at.head| else 9)
              && finding.value.orParent == at.racing
  {
    if at.head == "" || at.branch != "main" || at.remoteMain != at.head {
      return None;
    }
    var anchored := RemoteAnchorCommits(reached, lines);
    ExposesExactlyAnchored(lines, tags);
    return MissingAnchorMessage(at, anchored);
  }
}
