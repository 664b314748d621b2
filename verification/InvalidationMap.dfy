/** The evidence invalidation map: checks by coverage tag, the required checks, and the policy rules. */
module InvalidationMap {
  import opened Wrappers
  import opened JsonValue

  datatype Rule = R001 | R004 | R005 | R006 | R007 | R008 | R009 | R010

  /** A finding: its rule, its subject, and the check it misses if it is about one. */
  datatype Finding = Finding(rule: Rule, subject: string, check: string)

  class Findings {
    var items: seq<Finding>

    constructor ()
      ensures items == []
    {
      items := [];
    }

    method Add(rule: Rule, subject: string, check: string)
      modifies this
      ensures items == old(items) + [Finding(rule, subject, check)]
    {
      items := items + [Finding(rule, subject, check)];
    }

    /** `rule_ids`. */
    function RuleIds(): (rules: set<Rule>)
      reads this
      ensures forall r :: r in rules <==> exists f :: f in items && f.rule == r
    {
      set f | f in items :: f.rule
    }
  }

  /* ---- Reading loosely typed documents ---- */

  type Dict = map<string, Json>

  /** `d.get(key)`, where `None` also stands for null at the places that only ask for a list. */
  function Get(d: Dict, key: string): Option<Json> {
    if key in d then Some(d[key]) else None
  }

  function Text(s: string): Json {
    Leaf(Str(s))
  }

  /** `as_list(value)`. */
  function AsList(v: Option<Json>): seq<Json> {
    if v.Some? && v.value.Arr? then v.value.items else []
  }

  /** `string_set(value)`. */
  function StringSet(v: Option<Json>): set<string> {
    set item | item in AsList(v) && item.Leaf? && item.scalar.Str? && item.scalar.s != "" :: item.scalar.s
  }

  const CLASSES := "inputClasses"
  const TAGS := "coverageTags"
  const CHECKS := "minimumValidatorChecks"

  /* ---- Checks by tag ---- */

  /** An input class that carries a tag and lists a check. */
  predicate Lists(row: Json, tag: string, check: string) {
    row.Obj? && tag in StringSet(Get(row.fields, TAGS)) && check in StringSet(Get(row.fields, CHECKS))
  }

  /** Some input class that carries a tag lists a check. */
  ghost predicate Covered(rows: seq<Json>, tag: string, check: string) {
    exists row :: row in rows && Lists(row, tag, check)
  }

  /** `checks_by_tag.get(tag, set())`. */
  function LookUp(checks: map<string, set<string>>, tag: string): set<string> {
    if tag in checks then checks[tag] else {}
  }

  ghost predicate Collected(rows: seq<Json>, checks: map<string, set<string>>) {
    forall tag, check :: check in LookUp(checks, tag) <==> Covered(rows, tag, check)
  }

  lemma CoveredAppend(rows: seq<Json>, row: Json)
    ensures forall tag, check :: Covered(rows + [row], tag, check) <==> Covered(rows, tag, check) || Lists(row, tag, check)
  {
    forall tag, check ensures Covered(rows + [row], tag, check) <==> Covered(rows, tag, check) || Lists(row, tag, check) {
      if Lists(row, tag, check) {
        assert row in rows + [row];
      }
      if Covered(rows, tag, check) {
        var r :| r in rows && Lists(r, tag, check);
        assert r in rows + [row];
      }
    }
  }

  /** `for tag in tags: checks.setdefault(tag, set()).update(rowChecks)`. */
  method AddRow(checks: map<string, set<string>>, tags: set<string>, rowChecks: set<string>)
    returns (more: map<string, set<string>>)
    ensures forall tag :: LookUp(more, tag) == if tag in tags then LookUp(checks, tag) + rowChecks else LookUp(checks, tag)
  {
    more := checks;
    var pending := tags;
    while pending != {}
      invariant pending <= tags
      invariant forall tag :: LookUp(more, tag) == if tag in tags && tag !in pending then LookUp(checks, tag) + rowChecks
                                                  else LookUp(checks, tag)
      decreases pending
    {
      var tag :| tag in pending;
      more := more[tag := LookUp(more, tag) + rowChecks];
      pending := pending - {tag};
    }
  }

  /** `class_checks_by_tag`. */
  method ClassChecksByTag(data: Dict) returns (checks: map<string, set<string>>)
    ensures Collected(AsList(Get(data, CLASSES)), checks)
  {
    var rows := AsList(Get(data, CLASSES));
    checks := map[];
    for i := 0 to |rows|
      invariant Collected(rows[..i], checks)
    {
      var row := rows[i];
      assert rows[..i + 1] == rows[..i] + [row];
      CoveredAppend(rows[..i], row);
      if row.Obj? {
        checks := AddRow(checks, StringSet(Get(row.fields, TAGS)), StringSet(Get(row.fields, CHECKS)));
      }
    }
    assert rows[..|rows|] == rows;
  }

  /* ---- Required checks ---- */

  datatype Requirement = Requirement(tag: string, check: string, rule: Rule)

  /** The calls of `validate_required_checks`, in order. */
  const REQUIREMENTS: seq<Requirement> := [
    Requirement("artifact", "artifact-hash", R007),
    Requirement("artifact", "content-address", R007),
    Requirement("generated-report", "artifact-hash", R007),
    Requirement("generated-report", "content-address", R007),
    Requirement("artifact", "pruned-payload-metadata", R007),
    Requirement("git", "commit-pin", R007),
    Requirement("proof", "commit-pin", R007),
    Requirement("proof", "proof-level-not-overclaimed", R009),
    Requirement("proof", "observed-proof-bound", R009),
    Requirement("generated-report", "generated-report-not-authority", R006),
    Requirement("generated-report", "generated-report-only-not-proof", R006),
    Requirement("generated-report", "stale-generated-report-not-pass", R006),
    Requirement("provider", "provider-mode-mismatch-fails-closed", R008),
    Requirement("provider", "ambiguous-provider-fails-closed", R008),
    Requirement("environment", "environment-mismatch-fails-closed", R008),
    Requirement("environment", "ambiguous-environment-fails-closed", R008),
    Requirement("validator", "hidden-blocking-finding-fails-closed", R009),
    Requirement("human-decision", "no-automatic-human-signoff", R010),
    Requirement("human-decision", "changed-evidence-requires-human-review", R010)]

  function Violation(r: Requirement): Finding {
    Finding(r.rule, r.tag, r.check)
  }

  /** A requirement no input class of a document meets. */
  ghost predicate Missing(data: Dict, r: Requirement) {
    r in REQUIREMENTS && !Covered(AsList(Get(data, CLASSES)), r.tag, r.check)
  }

  /** `require_tag_check`. */
  method RequireTagCheck(findings: Findings, checks: map<string, set<string>>, r: Requirement)
    modifies findings
    ensures findings.items == old(findings.items) + if r.check in LookUp(checks, r.tag) then [] else [Violation(r)]
  {
    if r.check !in LookUp(checks, r.tag) {
      findings.Add(r.rule, r.tag, r.check);
    }
  }

  /** The violations among some requirements, in order. */
  function Violations(requirements: seq<Requirement>, checks: map<string, set<string>>): seq<Finding> {
    if requirements == [] then []
    else
      var last := requirements[|requirements| - 1];
      Violations(requirements[..|requirements| - 1], checks)
      + if last.check in LookUp(checks, last.tag) then [] else [Violation(last)]
  }

  lemma {:induction false} ViolationsMembers(requirements: seq<Requirement>, checks: map<string, set<string>>, f: Finding)
    ensures f in Violations(requirements, checks) <==>
              exists r :: r in requirements && r.check !in LookUp(checks, r.tag) && f == Violation(r)
  {
    if requirements == [] {
    } else {
      var before, last := requirements[..|requirements| - 1], requirements[|requirements| - 1];
      ViolationsMembers(before, checks, f);
      assert requirements == before + [last];
    }
  }

  method RequireAll(findings: Findings, checks: map<string, set<string>>, requirements: seq<Requirement>)
    modifies findings
    ensures findings.items == old(findings.items) + Violations(requirements, checks)
  {
    for i := 0 to |requirements|
      invariant findings.items == old(findings.items) + Violations(requirements[..i], checks)
    {
      assert requirements[..i + 1][..i] == requirements[..i];
      RequireTagCheck(findings, checks, requirements[i]);
    }
    assert requirements[..|requirements|] == requirements;
  }

  /** A finding about a requirement nobody meets. */
  ghost predicate RequirementFinding(data: Dict, f: Finding) {
    exists r :: Missing(data, r) && f == Violation(r)
  }

  /** `validate_required_checks`: the findings added are those of the missing requirements. */
  method ValidateRequiredChecks(findings: Findings, data: Dict)
    modifies findings
    ensures forall f :: f in findings.items <==> f in old(findings.items) || RequirementFinding(data, f)
  {
    var checks := ClassChecksByTag(data);
    RequireAll(findings, checks, REQUIREMENTS);
    forall f ensures f in Violations(REQUIREMENTS, checks) <==> RequirementFinding(data, f) {
      ViolationsMembers(REQUIREMENTS, checks, f);
    }
  }

  /* ---- Policies, states and non-claims ---- */

  const POLICIES := "globalPolicies"
  const NON_PASS := "nonPassStates"
  const NON_CLAIMS := "nonClaims"
  const STALE_STATES := "stalePropagationStates"

  const NO: Option<Json> := Some(Leaf(Bool(false)))
  const FULL_PROOF: Option<Json> := Some(Text("full-proof-for-affected-family"))
  const WIDEN: Option<Json> := Some(Text("full-proof-for-affected-family-or-widen-to-all"))
  const TERMINAL_ISSUE: Option<Json> := Some(Text("USF-966"))

  /** A policy on unknown or generated inputs, or on signing off, is broken. */
  ghost predicate AuthorityBroken(p: Dict, f: Finding) {
    || (f == Finding(R004, "unknownInputFallback", "") && Get(p, "unknownInputFallback") != WIDEN)
    || (f == Finding(R006, "generatedReports", "")
        && (Get(p, "generatedReportsAreAuthority") != NO || Get(p, "generatedReportOnlyCanSatisfyProof") != NO))
    || (f == Finding(R010, "automaticHumanSignoffAllowed", "") && Get(p, "automaticHumanSignoffAllowed") != NO)
    || (f == Finding(R005, "terminalRefresh", "")
        && (Get(p, "terminalFreshMachineQaIssue") != TERMINAL_ISSUE || Get(p, "terminalRefreshDeferredCanPass") != NO))
  }

  /** A policy on ambiguity, overclaiming or staleness is broken. */
  ghost predicate FallbackBroken(p: Dict, f: Finding) {
    || (f == Finding(R008, "ambiguousProviderFallback", "") && Get(p, "ambiguousProviderFallback") != FULL_PROOF)
    || (f == Finding(R008, "ambiguousEnvironmentFallback", "") && Get(p, "ambiguousEnvironmentFallback") != FULL_PROOF)
    || (f == Finding(R009, "proofOverclaimCanPass", "") && Get(p, "proofOverclaimCanPass") != NO)
    || (f == Finding(R005, "staleCanPass", "") && Get(p, "staleCanPass") != NO)
  }

  ghost predicate PolicyFinding(data: Dict, f: Finding) {
    if POLICIES in data && data[POLICIES].Obj? then AuthorityBroken(data[POLICIES].fields, f) || FallbackBroken(data[POLICIES].fields, f)
    else f == Finding(R001, POLICIES, "")
  }

  method AddIf(findings: Findings, condition: bool, rule: Rule, subject: string)
    modifies findings
    ensures forall f :: f in findings.items <==> f in old(findings.items) || (condition && f == Finding(rule, subject, ""))
  {
    if condition {
      findings.Add(rule, subject, "");
    }
  }

  method ValidateAuthority(findings: Findings, p: Dict)
    modifies findings
    ensures forall f :: f in findings.items <==> f in old(findings.items) || AuthorityBroken(p, f)
  {
    AddIf(findings, Get(p, "unknownInputFallback") != WIDEN, R004, "unknownInputFallback");
    AddIf(findings, Get(p, "generatedReportsAreAuthority") != NO || Get(p, "generatedReportOnlyCanSatisfyProof") != NO,
          R006, "generatedReports");
    AddIf(findings, Get(p, "automaticHumanSignoffAllowed") != NO, R010, "automaticHumanSignoffAllowed");
    AddIf(findings, Get(p, "terminalFreshMachineQaIssue") != TERMINAL_ISSUE || Get(p, "terminalRefreshDeferredCanPass") != NO,
          R005, "terminalRefresh");
  }

  method ValidateFallbacks(findings: Findings, p: Dict)
    modifies findings
    ensures forall f :: f in findings.items <==> f in old(findings.items) || FallbackBroken(p, f)
  {
    AddIf(findings, Get(p, "ambiguousProviderFallback") != FULL_PROOF, R008, "ambiguousProviderFallback");
    AddIf(findings, Get(p, "ambiguousEnvironmentFallback") != FULL_PROOF, R008, "ambiguousEnvironmentFallback");
    AddIf(findings, Get(p, "proofOverclaimCanPass") != NO, R009, "proofOverclaimCanPass");
    AddIf(findings, Get(p, "staleCanPass") != NO, R005, "staleCanPass");
  }

  /** `validate_global_policies`. */
  method ValidateGlobalPolicies(findings: Findings, data: Dict)
    modifies findings
    ensures forall f :: f in findings.items <==> f in old(findings.items) || PolicyFinding(data, f)
  {
    if POLICIES !in data || !data[POLICIES].Obj? {
      findings.Add(R001, POLICIES, "");
    } else {
      ValidateAuthority(findings, data[POLICIES].fields);
      ValidateFallbacks(findings, data[POLICIES].fields);
    }
  }

  const REQUIRED_STATES: set<string> :=
    {"current", "stale", "superseded", "historical", "invalidated", "human-review-required", "generated-report-only",
     "terminal-refresh-deferred"}

  /** Every required state is listed, and exactly `current` and `historical` are not failure states. */
  ghost predicate StateFinding(data: Dict, f: Finding) {
    var states, nonPass := StringSet(Get(data, STALE_STATES)), StringSet(Get(data, NON_PASS));
    || (f == Finding(R005, STALE_STATES, "") && !(REQUIRED_STATES <= states))
    || (f == Finding(R005, NON_PASS, "")
        && exists s :: s in REQUIRED_STATES && (s in nonPass <==> s == "current" || s == "historical"))
  }

  /** `validate_state_model`. */
  method ValidateStateModel(findings: Findings, data: Dict)
    modifies findings
    ensures forall f :: f in findings.items <==> f in old(findings.items) || StateFinding(data, f)
  {
    var states, nonPass := StringSet(Get(data, STALE_STATES)), StringSet(Get(data, NON_PASS));
    var required := REQUIRED_STATES - {"current", "historical"};
    AddIf(findings, REQUIRED_STATES - states != {}, R005, STALE_STATES);
    AddIf(findings, required - nonPass != {}, R005, NON_PASS);
    AddIf(findings, "current" in nonPass || "historical" in nonPass, R005, NON_PASS);
    NothingMissing(REQUIRED_STATES, states);
    NothingMissing(required, nonPass);
    assert "current" in REQUIRED_STATES && "historical" in REQUIRED_STATES;
  }

  lemma NothingMissing(required: set<string>, given: set<string>)
    ensures required - given == {} <==> required <= given
  {
    if required - given == {} {
      forall x | x in required ensures x in given {
        assert x !in required - given;
      }
    }
  }

  const REQUIRED_NON_CLAIMS: set<string> :=
    {"no-staging-readiness", "no-production-readiness", "no-deployment-readiness", "no-live-provider-readiness",
     "no-product-readiness", "no-store-readiness", "no-compliance-readiness", "generated-reports-are-not-authority",
     "linear-is-not-semantic-authority"}

  /** `validate_non_claims`. */
  method ValidateNonClaims(findings: Findings, data: Dict)
    modifies findings
    ensures forall f :: f in findings.items <==>
              f in old(findings.items) || (f == Finding(R010, NON_CLAIMS, "") && !(REQUIRED_NON_CLAIMS <= StringSet(Get(data, NON_CLAIMS))))
  {
    NothingMissing(REQUIRED_NON_CLAIMS, StringSet(Get(data, NON_CLAIMS)));
    AddIf(findings, REQUIRED_NON_CLAIMS - StringSet(Get(data, NON_CLAIMS)) != {}, R010, NON_CLAIMS);
  }
}
