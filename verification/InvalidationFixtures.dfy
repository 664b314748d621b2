/** The planted defects of the invalidation map, and why the self-test catches them on every base map. */
module InvalidationFixtures {
  import opened Wrappers
  import opened JsonValue
  import opened InvalidationMap
  import opened InvalidationClassify

  datatype Kind =
    | UnknownPath | NewSurface
    | MissingHash | MissingCommitPin | StaleReport | PrunedPayload | HiddenFinding
    | AmbiguousProvider | AmbiguousEnvironment | ReportOnlyProof | ProofOverclaim | AutomaticSignoff
    | SupersededReuse | MissingNonClaims | Other

  /** The fixtures that strip a check from every input class carrying one of some tags. */
  predicate Strips(k: Kind) {
    k.MissingHash? || k.MissingCommitPin? || k.StaleReport? || k.PrunedPayload? || k.HiddenFinding?
  }

  function TagsOf(k: Kind): seq<string>
    requires Strips(k)
  {
    match k
    case MissingHash => ["artifact"]
    case MissingCommitPin => ["git", "proof"]
    case StaleReport => ["generated-report"]
    case PrunedPayload => ["artifact"]
    case HiddenFinding => ["validator"]
  }

  function CheckOf(k: Kind): string
    requires Strips(k)
  {
    match k
    case MissingHash => "artifact-hash"
    case MissingCommitPin => "commit-pin"
    case StaleReport => "stale-generated-report-not-pass"
    case PrunedPayload => "pruned-payload-metadata"
    case HiddenFinding => "hidden-blocking-finding-fails-closed"
  }

  /** The rule each planted defect is expected to raise. */
  function Expected(k: Kind): Rule {
    match k
    case UnknownPath | NewSurface => R004
    case MissingHash | MissingCommitPin | PrunedPayload => R007
    case StaleReport | ReportOnlyProof => R006
    case HiddenFinding | ProofOverclaim => R009
    case AmbiguousProvider | AmbiguousEnvironment => R008
    case AutomaticSignoff | MissingNonClaims => R010
    case SupersededReuse => R005
    case Other => R001
  }

  /* ---- Python's `in` and iteration on loosely typed values ---- */

  /** A value that is neither a list, a string nor an object cannot be searched or iterated. */
  predicate Iterable(v: Option<Json>) {
    v.Some? && v.value.Leaf? ==> v.value.scalar.Str?
  }

  /** `text in value`: an element of a list, a key of an object, or a piece of a string. */
  predicate In(text: string, v: Option<Json>)
    requires Iterable(v)
  {
    match v
    case None => false
    case Some(Arr(items)) => Text(text) in items
    case Some(Obj(fields)) => text in fields
    case Some(Leaf(Str(s))) => exists i :: 0 <= i <= |s| && text <= s[i..]
  }

  /** A text is in another exactly when it is a piece of it. */
  lemma InText(text: string, s: string)
    ensures In(text, Some(Text(s))) <==> exists a, b :: s == a + text + b
  {
    if i :| 0 <= i <= |s| && text <= s[i..] {
      assert s == s[..i] + text + s[i + |text|..];
    }
    if a, b :| s == a + text + b {
      assert s[|a|..] == text + b;
    }
  }

  /** In a list a text is an element, in an object a key, and nothing is in an absent value. */
  lemma InCollection(text: string, items: seq<Json>, fields: Dict)
    ensures In(text, Some(Arr(items))) <==> exists i :: 0 <= i < |items| && items[i] == Text(text)
    ensures In(text, Some(Obj(fields))) <==> text in fields.Keys
    ensures !In(text, None)
  {
  }

  /** What iterating a value yields: elements, keys, or one-character strings. */
  predicate Yields(v: Option<Json>, x: Json) {
    match v
    case Some(Arr(items)) => x in items
    case Some(Obj(fields)) => x.Leaf? && x.scalar.Str? && x.scalar.s in fields
    case Some(Leaf(Str(s))) => x.Leaf? && x.scalar.Str? && |x.scalar.s| == 1 && x.scalar.s[0] in s
    case _ => false
  }

  /** The elements of a list other than one, in order. */
  function Remove(items: seq<Json>, x: Json): (r: seq<Json>)
    ensures forall y :: y in r <==> y in items && y != x
  {
    if items == [] then []
    else
      assert items == items[..|items| - 1] + [items[|items| - 1]];
      Remove(items[..|items| - 1], x) + if items[|items| - 1] == x then [] else [items[|items| - 1]]
  }

  method Keys(fields: Dict) returns (keys: seq<Json>)
    ensures forall x :: x in keys <==> x.Leaf? && x.scalar.Str? && x.scalar.s in fields
  {
    keys := [];
    var pending := fields.Keys;
    while pending != {}
      invariant pending <= fields.Keys
      invariant forall x :: x in keys <==> x.Leaf? && x.scalar.Str? && x.scalar.s in fields && x.scalar.s !in pending
      decreases pending
    {
      var k :| k in pending;
      keys := keys + [Text(k)];
      pending := pending - {k};
    }
  }

  function Chars(s: string): seq<Json> {
    seq(|s|, i requires 0 <= i < |s| => Text([s[i]]))
  }

  /** `[item for item in value if item != unwanted]`. */
  method Without(v: Option<Json>, unwanted: string) returns (left: seq<Json>)
    requires Iterable(v)
    ensures forall x :: x in left <==> Yields(v, x) && x != Text(unwanted)
    ensures v.Some? && v.value.Arr? ==> left == Remove(v.value.items, Text(unwanted))
  {
    var all: seq<Json>;
    match v {
      case None => all := [];
      case Some(Arr(items)) => all := items;
      case Some(Obj(fields)) => all := Keys(fields);
      case Some(Leaf(Str(s))) =>
        all := Chars(s);
        forall x ensures x in all <==> Yields(v, x) {
          if Yields(v, x) {
            var i :| 0 <= i < |s| && s[i] == x.scalar.s[0];
            assert all[i] == x;
          }
        }
    }
    left := Remove(all, Text(unwanted));
  }

  /* ---- Stripping a check ---- */

  /** The guard that selects an input class for stripping. */
  predicate Carries(row: Json, tags: seq<string>)
    requires row.Obj? ==> Iterable(Get(row.fields, TAGS))
  {
    row.Obj? && exists t :: t in tags && In(t, Get(row.fields, TAGS))
  }

  /** Stripping a row raises no exception. */
  predicate Strippable(row: Json, tags: seq<string>) {
    row.Obj? ==> Iterable(Get(row.fields, TAGS)) && (Carries(row, tags) ==> Iterable(Get(row.fields, CHECKS)))
  }

  /** A row before and after the fixture. */
  ghost predicate Stripped(before: Json, after: Json, tags: seq<string>, check: string) {
    && Strippable(before, tags)
    && if !Carries(before, tags) then after == before
       else && after.Obj? && CHECKS in after.fields && after.fields[CHECKS].Arr?
            && after == Obj(before.fields[CHECKS := after.fields[CHECKS]])
            && (forall x :: x in after.fields[CHECKS].items <==> Yields(Get(before.fields, CHECKS), x) && x != Text(check))
            && (CHECKS in before.fields && before.fields[CHECKS].Arr? ==>
                  after.fields[CHECKS].items == Remove(before.fields[CHECKS].items, Text(check)))
  }

  method StripRow(row: Json, tags: seq<string>, check: string) returns (result: Result<Json, Error>)
    ensures result.Success? <==> Strippable(row, tags)
    ensures result.Success? ==> Stripped(row, result.value, tags, check)
  {
    if !row.Obj? {
      return Success(row);
    }
    if !Iterable(Get(row.fields, TAGS)) {
      return Failure(TypeError);
    }
    if !Carries(row, tags) {
      return Success(row);
    }
    if !Iterable(Get(row.fields, CHECKS)) {
      return Failure(TypeError);
    }
    var left := Without(Get(row.fields, CHECKS), check);
    return Success(Obj(row.fields[CHECKS := Arr(left)]));
  }

  /** The map before and after a check-removal fixture: list elements are stripped one by one; anything else that can
      be iterated holds no objects and stays. */
  ghost predicate StrippedMap(before: Dict, after: Dict, tags: seq<string>, check: string) {
    if CLASSES in before && before[CLASSES].Arr? then
      && CLASSES in after && after[CLASSES].Arr?
      && after == before[CLASSES := after[CLASSES]]
      && |after[CLASSES].items| == |before[CLASSES].items|
      && forall i :: 0 <= i < |before[CLASSES].items| ==> Stripped(before[CLASSES].items[i], after[CLASSES].items[i], tags, check)
    else after == before
  }

  predicate StrippableMap(data: Dict, tags: seq<string>) {
    && Iterable(Get(data, CLASSES))
    && forall row :: row in AsList(Get(data, CLASSES)) ==> Strippable(row, tags)
  }

  /** The loop shared by the check-removal branches of `apply_fixture`. */
  method StripClasses(data: Dict, tags: seq<string>, check: string) returns (result: Result<Dict, Error>)
    ensures result.Success? <==> StrippableMap(data, tags)
    ensures result.Success? ==> StrippedMap(data, result.value, tags, check)
  {
    if !Iterable(Get(data, CLASSES)) {
      return Failure(TypeError);
    }
    if CLASSES !in data || !data[CLASSES].Arr? {
      return Success(data);
    }
    var rows := data[CLASSES].items;
    for i := 0 to |rows|
      invariant |rows| == |data[CLASSES].items|
      invariant forall j :: 0 <= j < i ==> Stripped(data[CLASSES].items[j], rows[j], tags, check)
      invariant forall j :: i <= j < |rows| ==> rows[j] == data[CLASSES].items[j]
    {
      var row := StripRow(rows[i], tags, check);
      if row.Failure? {
        assert rows[i] in data[CLASSES].items;
        return Failure(row.error);
      }
      rows := rows[i := row.value];
    }
    return Success(data[CLASSES := Arr(rows)]);
  }

  /* ---- The heart of it ---- */

  /** A class that carries a tag passes the fixture's guard: `string_set` sees fewer tags than `in` does. */
  lemma TaggedIsCarried(row: Json, tags: seq<string>, tag: string)
    requires row.Obj? && Strippable(row, tags) && tag in tags && tag in StringSet(Get(row.fields, TAGS))
    ensures Carries(row, tags)
  {
    assert In(tag, Get(row.fields, TAGS));
  }

  lemma StrippedLacks(before: Json, after: Json, tags: seq<string>, check: string, tag: string)
    requires Stripped(before, after, tags, check) && tag in tags
    ensures !Lists(after, tag, check)
  {
    if after.Obj? && tag in StringSet(Get(after.fields, TAGS)) {
      assert Get(after.fields, TAGS) == Get(before.fields, TAGS);
      TaggedIsCarried(before, tags, tag);
      assert Text(check) !in after.fields[CHECKS].items;
    }
  }

  /** Whatever the other classes hold, no class of the stripped map covers a stripped tag's check. */
  lemma StrippedUncovers(before: Dict, after: Dict, tags: seq<string>, check: string, tag: string)
    requires StrippedMap(before, after, tags, check) && tag in tags
    ensures !Covered(AsList(Get(after, CLASSES)), tag, check)
  {
    var rows := AsList(Get(after, CLASSES));
    forall row | row in rows ensures !Lists(row, tag, check) {
      var i :| 0 <= i < |rows| && rows[i] == row;
      StrippedLacks(before[CLASSES].items[i], row, tags, check, tag);
    }
  }

  /** What a class covers once stripped: if it passes the guard, whatever its checks yield other than the stripped one. */
  predicate ListsStripped(row: Json, tags: seq<string>, check: string, tag: string, c: string)
    requires row.Obj? ==> Iterable(Get(row.fields, TAGS))
  {
    && row.Obj? && tag in StringSet(Get(row.fields, TAGS))
    && if Carries(row, tags) then c != check && c != "" && Yields(Get(row.fields, CHECKS), Text(c))
       else c in StringSet(Get(row.fields, CHECKS))
  }

  lemma ListsAfter(row: Json, row': Json, tags: seq<string>, check: string, tag: string, c: string)
    requires Stripped(row, row', tags, check)
    ensures Lists(row', tag, c) <==> ListsStripped(row, tags, check, tag, c)
  {
    if row.Obj? && Carries(row, tags) {
      assert Get(row'.fields, TAGS) == Get(row.fields, TAGS);
      StringSetMember(Get(row'.fields, CHECKS), c);
    }
  }

  /** Coverage after stripping, whatever the classes keep their checks in. */
  lemma CoveredAfter(before: Dict, after: Dict, tags: seq<string>, check: string, tag: string, c: string)
    requires StrippedMap(before, after, tags, check)
    ensures Covered(AsList(Get(after, CLASSES)), tag, c) <==>
              exists row :: row in AsList(Get(before, CLASSES)) && Strippable(row, tags) && ListsStripped(row, tags, check, tag, c)
  {
    var rows, rows' := AsList(Get(before, CLASSES)), AsList(Get(after, CLASSES));
    if row' :| row' in rows' && Lists(row', tag, c) {
      var i :| 0 <= i < |rows'| && rows'[i] == row';
      assert rows[i] in rows;
      ListsAfter(rows[i], row', tags, check, tag, c);
    }
    if row :| row in rows && Strippable(row, tags) && ListsStripped(row, tags, check, tag, c) {
      var i :| 0 <= i < |rows| && rows[i] == row;
      assert rows'[i] in rows';
      ListsAfter(row, rows'[i], tags, check, tag, c);
    }
  }

  lemma AllStrippable(before: Dict, after: Dict, tags: seq<string>, check: string)
    requires StrippedMap(before, after, tags, check)
    ensures forall row :: row in AsList(Get(before, CLASSES)) ==> Strippable(row, tags)
  {
    var rows := AsList(Get(before, CLASSES));
    forall row | row in rows ensures Strippable(row, tags) {
      var i :| 0 <= i < |rows| && rows[i] == row;
    }
  }

  /** Stripping takes away nothing but that check, and takes it from a tag exactly when every class listing it under that
      tag passes the guard. */
  lemma OnlyTheCheckIsLost(before: Dict, after: Dict, tags: seq<string>, check: string, tag: string, c: string)
    requires StrippedMap(before, after, tags, check)
    ensures c != check && Covered(AsList(Get(before, CLASSES)), tag, c) ==> Covered(AsList(Get(after, CLASSES)), tag, c)
    ensures c == check ==>
              (Covered(AsList(Get(after, CLASSES)), tag, c) <==>
                 exists row :: row in AsList(Get(before, CLASSES)) && Lists(row, tag, c) && Strippable(row, tags) && !Carries(row, tags))
  {
    AllStrippable(before, after, tags, check);
    CoveredAfter(before, after, tags, check, tag, c);
    if row :| row in AsList(Get(before, CLASSES)) && Lists(row, tag, c) {
      StringSetMember(Get(row.fields, CHECKS), c);
      assert c != check ==> ListsStripped(row, tags, check, tag, c);
    }
  }

  /** Checks a class does not keep in a list: the keys of an object, or the characters of a text. They do not count before
      the fixture and do after it. */
  predicate Unlisted(row: Json, tag: string, c: string) {
    && row.Obj? && tag in StringSet(Get(row.fields, TAGS))
    && CHECKS in row.fields && !row.fields[CHECKS].Arr?
    && c != "" && Yields(Get(row.fields, CHECKS), Text(c))
  }

  ghost predicate UnlistedIsCovered(rows: seq<Json>, tags: seq<string>, check: string) {
    forall row, tag, c ::
      row in rows && Strippable(row, tags) && Carries(row, tags) && c != check && Unlisted(row, tag, c) ==> Covered(rows, tag, c)
  }

  /** Stripping adds nothing exactly when whatever the classes passing the guard keep outside lists is covered already,
      the stripped check aside. */
  lemma AddsNothingIff(before: Dict, after: Dict, tags: seq<string>, check: string)
    requires StrippedMap(before, after, tags, check)
    ensures (forall tag, c :: Covered(AsList(Get(after, CLASSES)), tag, c) ==> Covered(AsList(Get(before, CLASSES)), tag, c))
            <==> UnlistedIsCovered(AsList(Get(before, CLASSES)), tags, check)
  {
    var rows, rows' := AsList(Get(before, CLASSES)), AsList(Get(after, CLASSES));
    if forall tag, c :: Covered(rows', tag, c) ==> Covered(rows, tag, c) {
      forall row, tag, c | row in rows && Strippable(row, tags) && Carries(row, tags) && c != check && Unlisted(row, tag, c)
        ensures Covered(rows, tag, c)
      {
        CoveredAfter(before, after, tags, check, tag, c);
        assert ListsStripped(row, tags, check, tag, c);
      }
    }
    if UnlistedIsCovered(rows, tags, check) {
      forall tag, c | Covered(rows', tag, c) ensures Covered(rows, tag, c) {
        CoveredAfter(before, after, tags, check, tag, c);
        var row :| row in rows && Strippable(row, tags) && ListsStripped(row, tags, check, tag, c);
        ListedOrUnlisted(row, tags, check, tag, c);
      }
    }
  }

  lemma ListedOrUnlisted(row: Json, tags: seq<string>, check: string, tag: string, c: string)
    requires Strippable(row, tags) && ListsStripped(row, tags, check, tag, c)
    ensures Lists(row, tag, c) || (Carries(row, tags) && c != check && Unlisted(row, tag, c))
  {
    StringSetMember(Get(row.fields, CHECKS), c);
  }

  lemma StringSetMember(v: Option<Json>, s: string)
    ensures s in StringSet(v) <==> Text(s) in AsList(v) && s != ""
  {
    if s in StringSet(v) {
      var item :| item in AsList(v) && item.Leaf? && item.scalar.Str? && item.scalar.s != "" && item.scalar.s == s;
      assert item == Text(s);
    }
  }

  /** A map on which stripping one check silences the complaint about another, kept as the key of an object. */
  lemma KeysBecomeChecks() returns (before: Dict, after: Dict)
    ensures StrippedMap(before, after, TagsOf(MissingHash), CheckOf(MissingHash))
    ensures !Covered(AsList(Get(before, CLASSES)), "artifact", "content-address")
    ensures Covered(AsList(Get(after, CLASSES)), "artifact", "content-address")
  {
    var tags := Arr([Text("artifact")]);
    var checks: Dict := map["content-address" := Leaf(Null)];
    var row := Obj(map[TAGS := tags, CHECKS := Obj(checks)]);
    var row' := Obj(map[TAGS := tags, CHECKS := Arr([Text("content-address")])]);
    before, after := map[CLASSES := Arr([row])], map[CLASSES := Arr([row'])];
    assert Text("artifact") in [Text("artifact")];
    assert In("artifact", Get(row.fields, TAGS));
    assert TagsOf(MissingHash)[0] == "artifact";
    assert Carries(row, TagsOf(MissingHash));
    assert row' == Obj(row.fields[CHECKS := row'.fields[CHECKS]]);
    StringSetMember(Some(tags), "artifact");
    StringSetMember(Get(row'.fields, CHECKS), "content-address");
    assert Lists(row', "artifact", "content-address") && row' in [row'];
  }

  /* ---- The other fixtures ---- */

  datatype Defect = Defect(kind: Kind, changedPaths: seq<string>)

  /** The policy a fixture overwrites, and with what. */
  function PolicyOf(k: Kind): Option<(string, Json)> {
    match k
    case AmbiguousProvider => Some(("ambiguousProviderFallback", Text("reuse-existing-evidence")))
    case AmbiguousEnvironment => Some(("ambiguousEnvironmentFallback", Text("reuse-existing-evidence")))
    case ReportOnlyProof => Some(("generatedReportOnlyCanSatisfyProof", Leaf(Bool(true))))
    case ProofOverclaim => Some(("proofOverclaimCanPass", Leaf(Bool(true))))
    case AutomaticSignoff => Some(("automaticHumanSignoffAllowed", Leaf(Bool(true))))
    case _ => None
  }

  const UNKNOWN_PATH := "scratch/unclassified-proof-input.json"
  const NEW_SURFACE_PATH := "external-evidence/new-surface/record.json"

  function PathsOf(d: Defect): seq<string> {
    match d.kind
    case UnknownPath => [UNKNOWN_PATH]
    case NewSurface => [NEW_SURFACE_PATH]
    case Other => []
    case _ => d.changedPaths
  }

  /** Applying the fixture raises no exception. */
  predicate Applicable(data: Dict, k: Kind) {
    if Strips(k) then StrippableMap(data, TagsOf(k))
    else if PolicyOf(k).Some? then POLICIES in data ==> data[POLICIES].Obj?
    else k.SupersededReuse? ==> Iterable(Get(data, NON_PASS))
  }

  ghost predicate Mutated(before: Dict, after: Dict, k: Kind) {
    if Strips(k) then StrippedMap(before, after, TagsOf(k), CheckOf(k))
    else if PolicyOf(k).Some? then
      var (key, value) := PolicyOf(k).value;
      var policies := if POLICIES in before && before[POLICIES].Obj? then before[POLICIES].fields else map[];
      after == before[POLICIES := Obj(policies[key := value])]
    else if k.SupersededReuse? then
      && NON_PASS in after && after[NON_PASS].Arr?
      && after == before[NON_PASS := after[NON_PASS]]
      && forall x :: x in after[NON_PASS].items <==> Yields(Get(before, NON_PASS), x) && x != Text("superseded")
    else if k.MissingNonClaims? then after == before[NON_CLAIMS := Arr([])]
    else after == before
  }

  /** `apply_fixture`; working on a copy, it leaves the base map alone. */
  method ApplyFixture(data: Dict, d: Defect) returns (result: Result<(Dict, seq<string>), Error>)
    ensures result.Success? <==> Applicable(data, d.kind)
    ensures result.Success? ==> Mutated(data, result.value.0, d.kind) && result.value.1 == PathsOf(d)
  {
    var mutated := data;
    if Strips(d.kind) {
      mutated :- StripClasses(data, TagsOf(d.kind), CheckOf(d.kind));
    } else if PolicyOf(d.kind).Some? {
      var (key, value) := PolicyOf(d.kind).value;
      if POLICIES !in mutated {
        mutated := mutated[POLICIES := Obj(map[])];
      }
      if !mutated[POLICIES].Obj? {
        return Failure(TypeError);
      }
      mutated := mutated[POLICIES := Obj(mutated[POLICIES].fields[key := value])];
    } else if d.kind.SupersededReuse? {
      if !Iterable(Get(mutated, NON_PASS)) {
        return Failure(TypeError);
      }
      var left := Without(Get(mutated, NON_PASS), "superseded");
      mutated := mutated[NON_PASS := Arr(left)];
    } else if d.kind.MissingNonClaims? {
      mutated := mutated[NON_CLAIMS := Arr([])];
    }
    return Success((mutated, PathsOf(d)));
  }

  /* ---- The self-test ---- */

  /** The findings of the modelled part of `validate_map`. */
  ghost predicate MapFinding(data: Dict, f: Finding) {
    || PolicyFinding(data, f) || StateFinding(data, f) || RequirementFinding(data, f)
    || (f == Finding(R010, NON_CLAIMS, "") && !(REQUIRED_NON_CLAIMS <= StringSet(Get(data, NON_CLAIMS))))
  }

  method ValidateMap(data: Dict) returns (findings: Findings)
    ensures fresh(findings)
    ensures forall f :: f in findings.items <==> MapFinding(data, f)
  {
    findings := new Findings();
    ValidateGlobalPolicies(findings, data);
    ValidateStateModel(findings, data);
    ValidateNonClaims(findings, data);
    ValidateRequiredChecks(findings, data);
  }

  /* ---- When the modelled part of the validation is silent ---- */

  const POLICY_VALUES: seq<(string, Json)> :=
    [("unknownInputFallback", Leaf(Str("full-proof-for-affected-family-or-widen-to-all"))),
     ("ambiguousProviderFallback", Leaf(Str("full-proof-for-affected-family"))),
     ("ambiguousEnvironmentFallback", Leaf(Str("full-proof-for-affected-family"))),
     ("terminalFreshMachineQaIssue", Leaf(Str("USF-966"))),
     ("generatedReportsAreAuthority", Leaf(Bool(false))), ("generatedReportOnlyCanSatisfyProof", Leaf(Bool(false))),
     ("automaticHumanSignoffAllowed", Leaf(Bool(false))), ("terminalRefreshDeferredCanPass", Leaf(Bool(false))),
     ("proofOverclaimCanPass", Leaf(Bool(false))), ("staleCanPass", Leaf(Bool(false)))]

  /** Each policy has its required value. */
  predicate ValuesHeld(p: Dict) {
    forall i :: 0 <= i < |POLICY_VALUES| ==> Get(p, POLICY_VALUES[i].0) == Some(POLICY_VALUES[i].1)
  }

  ghost predicate PoliciesSound(data: Dict) {
    && "globalPolicies" in data && data["globalPolicies"].Obj?
    && ValuesHeld(data["globalPolicies"].fields)
  }

  lemma PoliciesSoundIff(data: Dict)
    ensures (forall f :: !PolicyFinding(data, f)) <==> PoliciesSound(data)
  {
    if "globalPolicies" in data && data["globalPolicies"].Obj? {
      PolicyValuesIff(data["globalPolicies"].fields);
      assert POLICIES == "globalPolicies";
      if forall f :: !PolicyFinding(data, f) {
        forall f ensures !AuthorityBroken(data[POLICIES].fields, f) && !FallbackBroken(data[POLICIES].fields, f) {
          assert !PolicyFinding(data, f);
        }
      }
    } else {
      assert PolicyFinding(data, Finding(R001, POLICIES, ""));
    }
  }

  predicate AuthoritySound(p: Dict) {
    && Get(p, "unknownInputFallback") == Some(Leaf(Str("full-proof-for-affected-family-or-widen-to-all")))
    && Get(p, "generatedReportsAreAuthority") == Get(p, "generatedReportOnlyCanSatisfyProof") == Some(Leaf(Bool(false)))
    && Get(p, "automaticHumanSignoffAllowed") == Some(Leaf(Bool(false)))
    && Get(p, "terminalFreshMachineQaIssue") == Some(Leaf(Str("USF-966")))
    && Get(p, "terminalRefreshDeferredCanPass") == Some(Leaf(Bool(false)))
  }

  lemma SoundUnbroken(p: Dict)
    requires AuthoritySound(p)
    ensures forall f :: !AuthorityBroken(p, f)
  {
  }

  lemma AuthorityIff(p: Dict)
    ensures (forall f :: !AuthorityBroken(p, f)) <==> AuthoritySound(p)
  {
    if AuthoritySound(p) {
      SoundUnbroken(p);
    }
    if forall f :: !AuthorityBroken(p, f) {
      UnbrokenSound(p);
    }
  }

  lemma UnbrokenSound(p: Dict)
    requires forall f :: !AuthorityBroken(p, f)
    ensures AuthoritySound(p)
  {
    UnbrokenTerminal(p);
    assert Get(p, "unknownInputFallback") == WIDEN by {
      assert !AuthorityBroken(p, Finding(R004, "unknownInputFallback", ""));
    }
    assert Get(p, "generatedReportsAreAuthority") == Get(p, "generatedReportOnlyCanSatisfyProof") == NO by {
      assert !AuthorityBroken(p, Finding(R006, "generatedReports", ""));
    }
  }

  lemma UnbrokenTerminal(p: Dict)
    requires forall f :: !AuthorityBroken(p, f)
    ensures Get(p, "automaticHumanSignoffAllowed") == NO
    ensures Get(p, "terminalFreshMachineQaIssue") == TERMINAL_ISSUE && Get(p, "terminalRefreshDeferredCanPass") == NO
  {
    assert !AuthorityBroken(p, Finding(R010, "automaticHumanSignoffAllowed", ""));
    assert !AuthorityBroken(p, Finding(R005, "terminalRefresh", ""));
  }

  predicate FallbackSound(p: Dict) {
    && Get(p, "ambiguousProviderFallback") == Some(Leaf(Str("full-proof-for-affected-family")))
    && Get(p, "ambiguousEnvironmentFallback") == Some(Leaf(Str("full-proof-for-affected-family")))
    && Get(p, "proofOverclaimCanPass") == Get(p, "staleCanPass") == Some(Leaf(Bool(false)))
  }

  lemma FallbackIff(p: Dict)
    ensures (forall f :: !FallbackBroken(p, f)) <==> FallbackSound(p)
  {
    if forall f :: !FallbackBroken(p, f) {
      assert !FallbackBroken(p, Finding(R008, "ambiguousProviderFallback", ""));
      assert !FallbackBroken(p, Finding(R008, "ambiguousEnvironmentFallback", ""));
      assert !FallbackBroken(p, Finding(R009, "proofOverclaimCanPass", ""));
      assert !FallbackBroken(p, Finding(R005, "staleCanPass", ""));
    }
  }

  lemma ValuesSound(p: Dict)
    ensures ValuesHeld(p) <==> AuthoritySound(p) && FallbackSound(p)
  {
    if ValuesHeld(p) {
      assert Get(p, POLICY_VALUES[0].0) == Some(POLICY_VALUES[0].1) && Get(p, POLICY_VALUES[1].0) == Some(POLICY_VALUES[1].1);
      assert Get(p, POLICY_VALUES[2].0) == Some(POLICY_VALUES[2].1) && Get(p, POLICY_VALUES[3].0) == Some(POLICY_VALUES[3].1);
      assert Get(p, POLICY_VALUES[4].0) == Some(POLICY_VALUES[4].1) && Get(p, POLICY_VALUES[5].0) == Some(POLICY_VALUES[5].1);
      assert Get(p, POLICY_VALUES[6].0) == Some(POLICY_VALUES[6].1) && Get(p, POLICY_VALUES[7].0) == Some(POLICY_VALUES[7].1);
      assert Get(p, POLICY_VALUES[8].0) == Some(POLICY_VALUES[8].1) && Get(p, POLICY_VALUES[9].0) == Some(POLICY_VALUES[9].1);
    }
  }

  lemma UnbrokenTogether(p: Dict)
    ensures (forall f :: !AuthorityBroken(p, f) && !FallbackBroken(p, f))
            <==> (forall f :: !AuthorityBroken(p, f)) && (forall f :: !FallbackBroken(p, f))
  {
  }

  lemma PolicyValuesIff(p: Dict)
    ensures (forall f :: !AuthorityBroken(p, f) && !FallbackBroken(p, f))
            <==> ValuesHeld(p)
  {
    UnbrokenTogether(p);
    AuthorityIff(p);
    FallbackIff(p);
    ValuesSound(p);
  }

  const STATES: set<string> :=
    {"current", "historical", "stale", "superseded", "invalidated", "human-review-required", "generated-report-only",
     "terminal-refresh-deferred"}

  /** Every state is listed, and those that do not pass are all but the current and the historical one. */
  ghost predicate StatesSound(data: Dict) {
    && STATES <= StringSet(Get(data, "stalePropagationStates"))
    && STATES * StringSet(Get(data, "nonPassStates")) == STATES - {"current", "historical"}
  }

  lemma StatesSoundIff(data: Dict)
    ensures (forall f :: !StateFinding(data, f)) <==> StatesSound(data)
  {
    var nonPass := StringSet(Get(data, NON_PASS));
    assert STATES == REQUIRED_STATES;
    if forall f :: !StateFinding(data, f) {
      assert !StateFinding(data, Finding(R005, STALE_STATES, "")) && !StateFinding(data, Finding(R005, NON_PASS, ""));
      forall s ensures s in STATES * nonPass <==> s in STATES - {"current", "historical"} {
        assert s in REQUIRED_STATES ==> !(s in nonPass <==> s == "current" || s == "historical");
      }
    }
    if StatesSound(data) {
      forall s | s in REQUIRED_STATES ensures !(s in nonPass <==> s == "current" || s == "historical") {
        assert s in STATES * nonPass <==> s in STATES - {"current", "historical"};
      }
    }
  }

  const REQUIRED: seq<(string, string, Rule)> := [
    ("artifact", "artifact-hash", R007), ("artifact", "content-address", R007),
    ("generated-report", "artifact-hash", R007), ("generated-report", "content-address", R007),
    ("artifact", "pruned-payload-metadata", R007), ("git", "commit-pin", R007), ("proof", "commit-pin", R007),
    ("proof", "proof-level-not-overclaimed", R009), ("proof", "observed-proof-bound", R009),
    ("generated-report", "generated-report-not-authority", R006),
    ("generated-report", "generated-report-only-not-proof", R006),
    ("generated-report", "stale-generated-report-not-pass", R006),
    ("provider", "provider-mode-mismatch-fails-closed", R008), ("provider", "ambiguous-provider-fails-closed", R008),
    ("environment", "environment-mismatch-fails-closed", R008),
    ("environment", "ambiguous-environment-fails-closed", R008),
    ("validator", "hidden-blocking-finding-fails-closed", R009),
    ("human-decision", "no-automatic-human-signoff", R010),
    ("human-decision", "changed-evidence-requires-human-review", R010)]

  /** Some input class carries the tag and lists the check. */
  ghost predicate ClassLists(data: Dict, tag: string, check: string) {
    exists row :: row in AsList(Get(data, "inputClasses")) && RowLists(row, tag, check)
  }

  predicate RowLists(row: Json, tag: string, check: string) {
    && row.Obj? && tag in StringSet(Get(row.fields, "coverageTags"))
    && check in StringSet(Get(row.fields, "minimumValidatorChecks"))
  }

  lemma ListsByName(data: Dict, tag: string, check: string)
    ensures Covered(AsList(Get(data, CLASSES)), tag, check) <==> ClassLists(data, tag, check)
  {
    if row :| row in AsList(Get(data, CLASSES)) && Lists(row, tag, check) {
      assert RowLists(row, tag, check);
    }
    if row :| row in AsList(Get(data, "inputClasses")) && RowLists(row, tag, check) {
      assert Lists(row, tag, check);
    }
  }

  lemma RequirementAt(i: nat)
    requires i < |REQUIRED|
    ensures |REQUIREMENTS| == |REQUIRED| && REQUIREMENTS[i] == Requirement(REQUIRED[i].0, REQUIRED[i].1, REQUIRED[i].2)
  {
  }

  /** The finding about one of them that no input class meets. */
  ghost predicate Unmet(data: Dict, f: Finding, i: nat)
    requires i < |REQUIRED|
  {
    f == Finding(REQUIRED[i].2, REQUIRED[i].0, REQUIRED[i].1) && !ClassLists(data, REQUIRED[i].0, REQUIRED[i].1)
  }

  /** A requirement is reported, under its rule, exactly when no input class meets it. */
  lemma RequirementsByName(data: Dict, f: Finding)
    ensures RequirementFinding(data, f)
            <==> exists i :: 0 <= i < |REQUIRED| && Unmet(data, f, i)
  {
    if r :| Missing(data, r) && f == Violation(r) {
      var i :| 0 <= i < |REQUIREMENTS| && REQUIREMENTS[i] == r;
      RequirementAt(0);
      RequirementAt(i);
      ListsByName(data, r.tag, r.check);
      assert Unmet(data, f, i);
    }
    if i :| 0 <= i < |REQUIRED| && Unmet(data, f, i) {
      RequirementAt(i);
      ListsByName(data, REQUIRED[i].0, REQUIRED[i].1);
      var r := REQUIREMENTS[i];
      assert r in REQUIREMENTS && Missing(data, r) && f == Violation(r);
    }
  }

  const DISCLAIMED: set<string> :=
    {"no-staging-readiness", "no-production-readiness", "no-deployment-readiness", "no-live-provider-readiness",
     "no-product-readiness", "no-store-readiness", "no-compliance-readiness", "generated-reports-are-not-authority",
     "linear-is-not-semantic-authority"}

  /** The modelled part of the validation is silent exactly when policies, states, disclaimers and required checks are all
      as they should be. */
  lemma SilentIff(data: Dict)
    ensures (forall f :: !MapFinding(data, f))
            <==> && PoliciesSound(data) && StatesSound(data)
                 && DISCLAIMED <= StringSet(Get(data, "nonClaims"))
                 && forall i :: 0 <= i < |REQUIRED| ==> ClassLists(data, REQUIRED[i].0, REQUIRED[i].1)
  {
    PoliciesSoundIff(data);
    StatesSoundIff(data);
    forall f ensures RequirementFinding(data, f) <==> exists i :: 0 <= i < |REQUIRED| && Unmet(data, f, i) {
      RequirementsByName(data, f);
    }
    assert DISCLAIMED == REQUIRED_NON_CLAIMS;
    if forall f :: !MapFinding(data, f) {
      forall f ensures !PolicyFinding(data, f) && !StateFinding(data, f) {
        assert !MapFinding(data, f);
      }
      assert !MapFinding(data, Finding(R010, NON_CLAIMS, ""));
      forall i | 0 <= i < |REQUIRED| ensures ClassLists(data, REQUIRED[i].0, REQUIRED[i].1) {
        var f := Finding(REQUIRED[i].2, REQUIRED[i].0, REQUIRED[i].1);
        assert !MapFinding(data, f) && (Unmet(data, f, i) ==> RequirementFinding(data, f));
      }
    }
  }

  /** What each fixture strips, overturns or plants. */
  lemma FixtureTable(d: Defect)
    ensures TagsOf(MissingHash) == TagsOf(PrunedPayload) == ["artifact"] && TagsOf(MissingCommitPin) == ["git", "proof"]
    ensures TagsOf(StaleReport) == ["generated-report"] && TagsOf(HiddenFinding) == ["validator"]
    ensures CheckOf(MissingHash) == "artifact-hash" && CheckOf(MissingCommitPin) == "commit-pin"
    ensures CheckOf(StaleReport) == "stale-generated-report-not-pass" && CheckOf(PrunedPayload) == "pruned-payload-metadata"
    ensures CheckOf(HiddenFinding) == "hidden-blocking-finding-fails-closed"
    ensures PolicyOf(AmbiguousProvider) == Some(("ambiguousProviderFallback", Leaf(Str("reuse-existing-evidence"))))
    ensures PolicyOf(AmbiguousEnvironment) == Some(("ambiguousEnvironmentFallback", Leaf(Str("reuse-existing-evidence"))))
    ensures d.kind.UnknownPath? ==> PathsOf(d) == ["scratch/unclassified-proof-input.json"]
    ensures d.kind.NewSurface? ==> PathsOf(d) == ["external-evidence/new-surface/record.json"]
    ensures d.kind.Other? ==> PathsOf(d) == []
    ensures Strips(d.kind) || PolicyOf(d.kind).Some? || d.kind.SupersededReuse? || d.kind.MissingNonClaims? ==>
              PathsOf(d) == d.changedPaths
  {
  }

  /** A defect that removes or overturns something leaves a finding of its rule on every base map. */
  lemma DefectIsFound(before: Dict, after: Dict, k: Kind)
    requires Mutated(before, after, k) && !k.UnknownPath? && !k.NewSurface? && !k.Other?
    ensures exists f :: MapFinding(after, f) && f.rule == Expected(k)
  {
    if Strips(k) {
      StrippedRequirement(before, after, k);
    } else if PolicyOf(k).Some? {
      assert MapFinding(after, OverturnedPolicy(after, k));
    } else if k.SupersededReuse? {
      StringSetMember(Get(after, NON_PASS), "superseded");
      assert "superseded" in REQUIRED_STATES;
      assert StateFinding(after, Finding(R005, NON_PASS, ""));
      assert MapFinding(after, Finding(R005, NON_PASS, ""));
    } else {
      assert StringSet(Get(after, NON_CLAIMS)) == {};
      assert "no-staging-readiness" in REQUIRED_NON_CLAIMS;
      assert MapFinding(after, Finding(R010, NON_CLAIMS, ""));
    }
  }

  /** The finding an overturned policy leaves. */
  function OverturnedPolicy(after: Dict, k: Kind): Finding
    requires PolicyOf(k).Some?
  {
    if k.ReportOnlyProof? then Finding(R006, "generatedReports", "") else Finding(Expected(k), PolicyOf(k).value.0, "")
  }

  /** The requirement bound to a stripped check. */
  function Bound(k: Kind): Requirement
    requires Strips(k)
  {
    Requirement(TagsOf(k)[0], CheckOf(k), Expected(k))
  }

  lemma BoundIsRequired(k: Kind)
    requires Strips(k)
    ensures Bound(k) in REQUIREMENTS
  {
    match k
    case MissingHash => assert REQUIREMENTS[0] == Bound(k);
    case MissingCommitPin => assert REQUIREMENTS[5] == Bound(k);
    case StaleReport => assert REQUIREMENTS[11] == Bound(k);
    case PrunedPayload => assert REQUIREMENTS[4] == Bound(k);
    case HiddenFinding => assert REQUIREMENTS[16] == Bound(k);
  }

  lemma StrippedRequirement(before: Dict, after: Dict, k: Kind)
    requires Strips(k) && Mutated(before, after, k)
    ensures exists f :: MapFinding(after, f) && f.rule == Expected(k)
  {
    BoundIsRequired(k);
    StrippedUncovers(before, after, TagsOf(k), CheckOf(k), TagsOf(k)[0]);
    assert Missing(after, Bound(k));
    assert MapFinding(after, Violation(Bound(k)));
  }

  /** The rules a round observes: those of the map's findings, and rule 004 if some path is unplaced. */
  ghost predicate Observable(m: Matcher, data: Dict, paths: seq<string>, rule: Rule) {
    || (exists f :: MapFinding(data, f) && f.rule == rule)
    || (rule == R004 && exists p :: p in paths && Unplaced(m, AsList(Get(data, CLASSES)), Normalise(m, p)))
  }

  /** Classifying the paths raises nothing. */
  predicate Reportable(m: Matcher, data: Dict, paths: seq<string>) {
    Sortable(ModesOf(Rows(m, AsList(Get(data, CLASSES)), paths))) && PoliciesUsable(data)
  }

  method Observe(m: Matcher, data: Dict, paths: seq<string>) returns (result: Result<set<Rule>, Error>)
    ensures result.Success? <==> (paths != [] ==> Reportable(m, data, paths))
    ensures result.Success? ==> forall rule :: rule in result.value <==> Observable(m, data, paths, rule)
  {
    var findings := ValidateMap(data);
    var observed := findings.RuleIds();
    if paths != [] {
      var classified := ClassifyPaths(m, data, paths);
      if classified.Failure? {
        return Failure(classified.error);
      }
      var more := set f | f in classified.value.1 :: f.rule;
      PathRules(m, AsList(Get(data, CLASSES)), paths, classified.value.1, more);
      observed := observed + more;
    }
    return Success(observed);
  }

  lemma PathRules(m: Matcher, classes: seq<Json>, paths: seq<string>, findings: seq<Finding>, rules: set<Rule>)
    requires forall f :: f in findings <==> UnplacedFinding(m, classes, paths, f)
    requires rules == set f | f in findings :: f.rule
    ensures forall rule :: rule in rules <==> rule == R004 && exists p :: p in paths && Unplaced(m, classes, Normalise(m, p))
  {
    if p :| p in paths && Unplaced(m, classes, Normalise(m, p)) {
      assert UnplacedFinding(m, classes, paths, Finding(R004, Normalise(m, p), ""));
    }
  }

  lemma RequirementsAboutChecks()
    ensures forall r :: r in REQUIREMENTS ==> r.rule != R004
  {
    assert forall i :: 0 <= i < |REQUIREMENTS| ==> REQUIREMENTS[i].rule != R004;
  }

  lemma RequirementRule(data: Dict, f: Finding)
    ensures RequirementFinding(data, f) ==> f.rule != R004
  {
    RequirementsAboutChecks();
  }

  lemma StateRule(data: Dict, f: Finding)
    ensures StateFinding(data, f) ==> f.rule == R005
  {
  }

  lemma PolicySays004(data: Dict, f: Finding)
    requires f.rule == R004
    ensures MapFinding(data, f) <==> PolicyFinding(data, f)
  {
    RequirementRule(data, f);
    StateRule(data, f);
  }

  /** For a planted path rule 004 is observed exactly when nothing places the path or the fallback policy is broken. */
  lemma PathObserved(m: Matcher, data: Dict, path: string)
    ensures Observable(m, data, [path], R004) <==>
              || Unplaced(m, AsList(Get(data, CLASSES)), Normalise(m, path))
              || exists f :: PolicyFinding(data, f) && f.rule == R004
  {
    if f :| MapFinding(data, f) && f.rule == R004 {
      PolicySays004(data, f);
    }
    if f :| PolicyFinding(data, f) && f.rule == R004 {
      PolicySays004(data, f);
    }
    assert path in [path];
  }

  /** One round of the self-test: applicable defects are caught on every base map, except that a planted path is
      caught only where nothing places it or the fallback policy is broken already. */
  method SelfTest(m: Matcher, base: Dict, d: Defect) returns (result: Result<bool, Error>)
    ensures result.Success? <==> Applicable(base, d.kind) && (PathsOf(d) != [] ==> Reportable(m, base, PathsOf(d)))
    ensures result.Success? && !d.kind.UnknownPath? && !d.kind.NewSurface? && !d.kind.Other? ==> result.value
    ensures result.Success? && (d.kind.UnknownPath? || d.kind.NewSurface?) ==>
              (result.value <==> || Unplaced(m, AsList(Get(base, CLASSES)), Normalise(m, PathsOf(d)[0]))
                                 || exists f :: PolicyFinding(base, f) && f.rule == R004)
  {
    var applied := ApplyFixture(base, d);
    if applied.Failure? {
      return Failure(applied.error);
    }
    var (mutated, paths) := applied.value;
    MutatedReportable(m, base, mutated, d.kind, paths);
    var observed := Observe(m, mutated, paths);
    if observed.Failure? {
      return Failure(observed.error);
    }
    if d.kind.UnknownPath? || d.kind.NewSurface? {
      PathObserved(m, base, paths[0]);
    } else if !d.kind.Other? {
      DefectIsFound(base, mutated, d.kind);
    }
    return Success(Expected(d.kind) in observed.value);
  }

  /** No fixture touches what selects a class or what its fallback is. */
  lemma {:induction false} FirstStripped(m: Matcher, rows: seq<Json>, rows': seq<Json>, tags: seq<string>, check: string, path: string)
    requires |rows'| == |rows| && forall i :: 0 <= i < |rows| ==> Stripped(rows[i], rows'[i], tags, check)
    ensures Classified(m, rows', path).fallback == Classified(m, rows, path).fallback
  {
    if rows == [] {
    } else {
      assert Matches(m, rows[0], path) <==> Matches(m, rows'[0], path);
      if !Matches(m, rows[0], path) {
        FirstStripped(m, rows[1..], rows'[1..], tags, check, path);
      }
    }
  }

  lemma MutatedFallback(m: Matcher, before: Dict, after: Dict, k: Kind, path: string)
    requires Mutated(before, after, k)
    ensures Classified(m, AsList(Get(after, CLASSES)), path).fallback == Classified(m, AsList(Get(before, CLASSES)), path).fallback
  {
    if Strips(k) && CLASSES in before && before[CLASSES].Arr? {
      FirstStripped(m, before[CLASSES].items, after[CLASSES].items, TagsOf(k), CheckOf(k), path);
    } else {
      assert Get(after, CLASSES) == Get(before, CLASSES);
    }
  }

  lemma MutatedReportable(m: Matcher, before: Dict, after: Dict, k: Kind, paths: seq<string>)
    requires Applicable(before, k) && Mutated(before, after, k)
    ensures Reportable(m, before, paths) <==> Reportable(m, after, paths)
  {
    var rows, rows' := Rows(m, AsList(Get(before, CLASSES)), paths), Rows(m, AsList(Get(after, CLASSES)), paths);
    forall i | 0 <= i < |paths| ensures rows'[i].fallback == rows[i].fallback {
      MutatedFallback(m, before, after, k, Normalise(m, paths[i]));
    }
    SameModes(rows, rows');
  }

  lemma SameModes(rows: seq<Class>, rows': seq<Class>)
    requires |rows'| == |rows| && forall i :: 0 <= i < |rows| ==> rows'[i].fallback == rows[i].fallback
    ensures ModesOf(rows') == ModesOf(rows)
  {
    forall v ensures v in ModesOf(rows') <==> v in ModesOf(rows) {
      if v in ModesOf(rows') {
        var i :| 0 <= i < |rows'| && rows'[i].fallback == Some(v);
        assert rows[i] in rows;
      }
      if v in ModesOf(rows) {
        var i :| 0 <= i < |rows| && rows[i].fallback == Some(v);
        assert rows'[i] in rows';
      }
    }
  }
}
