/** Classifying changed paths by the first input class that selects them. */
module InvalidationClassify {
  import opened Wrappers
  import opened JsonValue
  import opened InvalidationMap

  /** `str.strip` and `fnmatch.fnmatchcase`. */
  datatype Matcher = Matcher(strip: string -> string, glob: (string, string) -> bool)

  datatype Error = TypeError | AttributeError

  /** `normalise_path`. */
  function Normalise(m: Matcher, path: string): string {
    var p := m.strip(path);
    if "./" <= p then p[2..] else p
  }

  predicate Selects(m: Matcher, selector: Json, path: string) {
    && selector.Obj? && "pattern" in selector.fields
    && var pattern := selector.fields["pattern"];
       pattern.Leaf? && pattern.scalar.Str? && m.glob(path, pattern.scalar.s)
  }

  /** Paths are stripped and lose one leading `./`. */
  lemma NormalisedIff(m: Matcher, path: string, rest: string)
    ensures m.strip(path) == "./" + rest ==> Normalise(m, path) == rest
    ensures (forall r :: m.strip(path) != "./" + r) ==> Normalise(m, path) == m.strip(path)
  {
    var p := m.strip(path);
    if "./" <= p {
      assert p == "./" + p[2..];
    }
  }

  /** A selector selects the paths its pattern, a text, matches. */
  lemma SelectsIff(m: Matcher, selector: Json, path: string)
    ensures Selects(m, selector, path)
            <==> exists pattern: string :: selector.Obj? && Get(selector.fields, "pattern") == Some(Text(pattern)) && m.glob(path, pattern)
  {
    if Selects(m, selector, path) {
      assert Get(selector.fields, "pattern") == Some(Text(selector.fields["pattern"].scalar.s));
    }
  }

  predicate Matches(m: Matcher, row: Json, path: string) {
    row.Obj? && exists s :: s in AsList(Get(row.fields, "selectors")) && Selects(m, s, path)
  }

  /** What the report says about a path. */
  datatype Class = Class(path: string, id: Option<Json>, tags: set<string>, proof: set<string>, evidence: set<string>,
                         fallback: Option<Json>, ambiguity: string)

  function ClassOf(row: Json, path: string): Class
    requires row.Obj?
  {
    Class(path, Get(row.fields, "id"), StringSet(Get(row.fields, TAGS)), StringSet(Get(row.fields, "affectedProofFamilies")),
          StringSet(Get(row.fields, "affectedEvidenceFamilies")), Get(row.fields, "fallbackRerunMode"), "")
  }

  const UNCLASSIFIED := "unclassified"
  const ALL_PROOF := "all-proof-families"
  const ALL_EVIDENCE := "all-evidence-families"

  function Unclassified(path: string): Class {
    Class(path, Some(Text(UNCLASSIFIED)), {}, {ALL_PROOF}, {ALL_EVIDENCE}, Some(Text("full-repository-proof")), "unclassified-input")
  }

  /** The first row that selects a path. */
  function First(m: Matcher, rows: seq<Json>, path: string): (row: Option<Json>)
    ensures row.Some? ==> Matches(m, row.value, path)
  {
    if rows == [] then None
    else if Matches(m, rows[0], path) then Some(rows[0])
    else First(m, rows[1..], path)
  }

  /** The classification of a normalised path. */
  function Classified(m: Matcher, rows: seq<Json>, path: string): Class {
    var row := First(m, rows, path);
    if row.Some? then ClassOf(row.value, path) else Unclassified(path)
  }

  lemma {:induction false} FirstAppend(m: Matcher, rows: seq<Json>, more: seq<Json>, path: string)
    ensures First(m, rows + more, path) == if First(m, rows, path).Some? then First(m, rows, path) else First(m, more, path)
  {
    if rows == [] {
      assert rows + more == more;
    } else {
      assert (rows + more)[1..] == rows[1..] + more;
      FirstAppend(m, rows[1..], more, path);
    }
  }

  /** The first selecting row is a member with only non-selecting rows before it; there is none exactly when no row
      selects the path. */
  lemma {:induction false} FirstIsFirst(m: Matcher, rows: seq<Json>, path: string)
    ensures First(m, rows, path).Some? ==>
              (exists i :: 0 <= i < |rows| && First(m, rows, path) == Some(rows[i])
                           && forall j :: 0 <= j < i ==> !Matches(m, rows[j], path))
    ensures First(m, rows, path).None? <==> forall row :: row in rows ==> !Matches(m, row, path)
  {
    if rows == [] {
    } else {
      var tail := rows[1..];
      FirstIsFirst(m, tail, path);
      assert rows == [rows[0]] + tail;
      if !Matches(m, rows[0], path) && First(m, tail, path).Some? {
        var i :| 0 <= i < |tail| && First(m, tail, path) == Some(tail[i]) && forall j :: 0 <= j < i ==> !Matches(m, tail[j], path);
        assert rows[i + 1] == tail[i];
        assert forall j :: 0 < j < i + 1 ==> rows[j] == tail[j - 1];
      }
    }
  }

  method SelectsAny(m: Matcher, selectors: seq<Json>, path: string) returns (found: bool)
    ensures found <==> exists s :: s in selectors && Selects(m, s, path)
  {
    for i := 0 to |selectors|
      invariant forall j :: 0 <= j < i ==> !Selects(m, selectors[j], path)
    {
      if Selects(m, selectors[i], path) {
        assert selectors[i] in selectors;
        return true;
      }
    }
    return false;
  }

  /** `classify_one`. */
  method ClassifyOne(m: Matcher, data: Dict, path: string) returns (c: Class)
    ensures c == Classified(m, AsList(Get(data, CLASSES)), Normalise(m, path))
    ensures var row := First(m, AsList(Get(data, CLASSES)), Normalise(m, path));
            row.Some? ==> && c.path == Normalise(m, path) && c.tags == StringSet(Get(row.value.fields, TAGS))
                          && c.fallback == Get(row.value.fields, "fallbackRerunMode")
                          && c.proof == StringSet(Get(row.value.fields, "affectedProofFamilies"))
                          && c.evidence == StringSet(Get(row.value.fields, "affectedEvidenceFamilies"))
                          && c.id == Get(row.value.fields, "id") && c.ambiguity == ""
  {
    var p := Normalise(m, path);
    var rows := AsList(Get(data, CLASSES));
    for i := 0 to |rows|
      invariant First(m, rows, p) == First(m, rows[i..], p)
    {
      if rows[i].Obj? {
        var found := SelectsAny(m, AsList(Get(rows[i].fields, "selectors")), p);
        if found {
          return ClassOf(rows[i], p);
        }
      }
      assert rows[i..][1..] == rows[i + 1..];
    }
    return Unclassified(p);
  }

  /** Input classes added at the end never reclassify a path some earlier class selects; they decide exactly the
      paths no earlier class does. */
  lemma AppendedClasses(m: Matcher, rows: seq<Json>, more: seq<Json>, path: string)
    ensures (exists row :: row in rows && Matches(m, row, path)) ==>
              Classified(m, rows + more, path) == Classified(m, rows, path)
    ensures (forall row :: row in rows ==> !Matches(m, row, path)) ==>
              Classified(m, rows + more, path) == Classified(m, more, path)
  {
    FirstAppend(m, rows, more, path);
    FirstIsFirst(m, rows, path);
  }

  /* ---- Reports ---- */

  datatype Report = Report(rows: seq<Class>, proof: set<string>, evidence: set<string>, modes: set<Json>, ambiguity: set<string>)

  /** Rule 004 fires for a path: no class selects it, or the first that does calls itself unclassified. */
  predicate Unplaced(m: Matcher, rows: seq<Json>, path: string) {
    var row := First(m, rows, path);
    row.None? || Get(row.value.fields, "id") == Some(Text(UNCLASSIFIED))
  }

  /** Python's truth value of a JSON value. */
  predicate Truthy(v: Json) {
    match v
    case Leaf(Null) => false
    case Leaf(Bool(b)) => b
    case Leaf(Int(i)) => i != 0
    case Leaf(Float(r)) => r != 0.0
    case Leaf(Str(s)) => s != ""
    case Arr(items) => items != []
    case Obj(fields) => fields != map[]
  }

  /** The fallback modes of some classes. */
  function ModesOf(rows: seq<Class>): set<Json> {
    set c | c in rows && c.fallback.Some? && Truthy(c.fallback.value) :: c.fallback.value
  }

  /** A set of modes can be built and sorted: no lists or objects, and no text among numbers. */
  predicate Sortable(modes: set<Json>) {
    && (forall v :: v in modes ==> v.Leaf?)
    && (forall v, w :: v in modes && w in modes ==> (v.scalar.Str? <==> w.scalar.Str?))
  }

  /** Only null, false, zero, the empty text and empty containers are dropped from the fallback modes. */
  lemma TruthyIff(v: Json)
    ensures !Truthy(v) <==> v in {Leaf(Null), Leaf(Bool(false)), Leaf(Int(0)), Leaf(Float(0.0)), Leaf(Str("")), Arr([]), Obj(map[])}
  {
  }

  /** Modes are scalars, and either all texts or none. */
  lemma SortableIff(modes: set<Json>)
    ensures Sortable(modes)
            <==> || (forall v :: v in modes ==> v.Leaf? && v.scalar.Str?)
                 || (forall v :: v in modes ==> v.Leaf? && !v.scalar.Str?)
  {
  }

  function Rows(m: Matcher, classes: seq<Json>, paths: seq<string>): seq<Class> {
    seq(|paths|, i requires 0 <= i < |paths| => Classified(m, classes, Normalise(m, paths[i])))
  }

  predicate PoliciesUsable(data: Dict) {
    POLICIES in data ==> data[POLICIES].Obj?
  }

  /** `classify_paths`: every path is placed, rule 004 names exactly the unplaced ones, and the summaries are those of the
      rows; fallback modes that cannot be sorted raise first, policies that are no object raise next. */
  method ClassifyPaths(m: Matcher, data: Dict, paths: seq<string>) returns (result: Result<(Report, seq<Finding>), Error>)
    ensures result.Success? <==> Sortable(ModesOf(Rows(m, AsList(Get(data, CLASSES)), paths))) && PoliciesUsable(data)
    ensures result.Failure? ==>
              (result.error == TypeError <==> !Sortable(ModesOf(Rows(m, AsList(Get(data, CLASSES)), paths))))
    ensures result.Success? ==>
              var (report, findings) := result.value;
              && report.rows == Rows(m, AsList(Get(data, CLASSES)), paths)
              && findings == Reported(m, AsList(Get(data, CLASSES)), paths)
              && (forall f :: f in findings <==> UnplacedFinding(m, AsList(Get(data, CLASSES)), paths, f))
              && (forall x :: x in report.proof <==> exists c :: c in report.rows && x in c.proof)
              && (forall x :: x in report.evidence <==> exists c :: c in report.rows && x in c.evidence)
              && (forall x :: x in report.ambiguity <==> x != "" && exists c :: c in report.rows && x == c.ambiguity)
              && report.modes == ModesOf(report.rows)
  {
    var rows: seq<Class> := [];
    ghost var classes := AsList(Get(data, CLASSES));
    for i := 0 to |paths|
      invariant rows == Rows(m, classes, paths[..i])
    {
      var c := ClassifyOne(m, data, paths[i]);
      rows := rows + [c];
    }
    assert paths[..|paths|] == paths;
    var findings := ReportUnplaced(m, classes, paths, rows);
    var proof := set row, x | row in rows && x in row.proof :: x;
    var evidence := set row, x | row in rows && x in row.evidence :: x;
    var modes := set c | c in rows && c.fallback.Some? && Truthy(c.fallback.value) :: c.fallback.value;
    if !Sortable(modes) {
      return Failure(TypeError);
    }
    var ambiguity := set row | row in rows && row.ambiguity != "" :: row.ambiguity;
    if POLICIES in data && !data[POLICIES].Obj? {
      return Failure(AttributeError);
    }
    return Success((Report(rows, proof, evidence, modes, ambiguity), findings));
  }

  ghost predicate UnplacedFinding(m: Matcher, classes: seq<Json>, paths: seq<string>, f: Finding) {
    exists p :: p in paths && Unplaced(m, classes, Normalise(m, p)) && f == Finding(R004, Normalise(m, p), "")
  }

  /** One finding, in order, for each path that stays unplaced. */
  function Reported(m: Matcher, classes: seq<Json>, paths: seq<string>): seq<Finding> {
    if paths == [] then []
    else
      var path := Normalise(m, paths[|paths| - 1]);
      Reported(m, classes, paths[..|paths| - 1]) + if Unplaced(m, classes, path) then [Finding(R004, path, "")] else []
  }

  method ReportUnplaced(m: Matcher, ghost classes: seq<Json>, paths: seq<string>, rows: seq<Class>) returns (findings: seq<Finding>)
    requires rows == Rows(m, classes, paths)
    ensures findings == Reported(m, classes, paths)
    ensures forall f :: f in findings <==> UnplacedFinding(m, classes, paths, f)
  {
    findings := [];
    for i := 0 to |rows|
      invariant findings == Reported(m, classes, paths[..i])
      invariant forall f :: f in findings <==> UnplacedFinding(m, classes, paths[..i], f)
    {
      assert paths[..i + 1] == paths[..i] + [paths[i]] && paths[..i + 1][..i] == paths[..i];
      if rows[i].id == Some(Text(UNCLASSIFIED)) {
        findings := findings + [Finding(R004, rows[i].path, "")];
      }
    }
    assert paths[..|rows|] == paths;
  }

  ghost predicate Unselected(m: Matcher, classes: seq<Json>, path: string) {
    forall row :: row in classes ==> !Matches(m, row, Normalise(m, path))
  }

  /** The first class that selects the path asks for every proof itself. */
  predicate AsksForAll(m: Matcher, classes: seq<Json>, path: string) {
    var row := First(m, classes, Normalise(m, path));
    row.Some? && ALL_PROOF in StringSet(Get(row.value.fields, "affectedProofFamilies"))
  }

  /** A path no class selects is reported as unclassified, affects everything and asks for a full rerun. */
  lemma UnselectedPath(m: Matcher, classes: seq<Json>, path: string)
    requires Unselected(m, classes, path)
    ensures var c := Classified(m, classes, Normalise(m, path));
            && Unplaced(m, classes, Normalise(m, path))
            && c.path == Normalise(m, path) && c.id == Some(Text("unclassified")) && c.tags == {}
            && c.proof == {"all-proof-families"} && c.evidence == {"all-evidence-families"}
            && c.fallback == Some(Text("full-repository-proof")) && c.ambiguity == "unclassified-input"
  {
    FirstIsFirst(m, classes, Normalise(m, path));
  }

  /** A report gives a reason for ambiguity exactly when some path is selected by no class, and affects every proof exactly
      then or when the first class selecting some path asks for it. */
  lemma UnselectedWidens(m: Matcher, classes: seq<Json>, paths: seq<string>)
    ensures var rows := Rows(m, classes, paths);
            && ((exists c :: c in rows && c.ambiguity != "") <==> exists p :: p in paths && Unselected(m, classes, p))
            && ((exists c :: c in rows && ALL_PROOF in c.proof)
                <==> exists p :: p in paths && (Unselected(m, classes, p) || AsksForAll(m, classes, p)))
  {
    var rows := Rows(m, classes, paths);
    forall p ensures Classified(m, classes, Normalise(m, p)).ambiguity != "" <==> Unselected(m, classes, p) {
      FirstIsFirst(m, classes, Normalise(m, p));
    }
    forall i | 0 <= i < |rows| ensures rows[i] == Classified(m, classes, Normalise(m, paths[i])) && paths[i] in paths {
    }
    forall p | p in paths ensures Classified(m, classes, Normalise(m, p)) in rows {
      var i :| 0 <= i < |paths| && paths[i] == p;
      assert rows[i] == Classified(m, classes, Normalise(m, p));
    }
  }
}
