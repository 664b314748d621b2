/** The final dev-exhaustion summary against the sweep: rules 004, 005 and 006 of the bridge. */
module ExhaustionSummary {
  import opened Wrappers
  import opened DevSweep

  datatype Disposition = Disposition(ref: Field, classification: Field)

  datatype Summary = Summary(rows: seq<Row>, dispositions: seq<Disposition>, realised: seq<Field>,
                             nonRealised: seq<Field>, backlogs: map<string, seq<Field>>, deprecatedOrRejected: seq<Field>)

  datatype KeyError = KeyError

  datatype Finding =
    | DispositionCount
    | UnknownContract(index: nat)
    | Contradicts(index: nat)
    | Overlap
    | NotTheWhole
    | NotTheRealised
    | NoBacklog(kind: Kind)
    | BacklogDiffers(kind: Kind)
    | LeftoversDiffer

  /** Where its rule lists a finding. */
  function FindingPlace(f: Finding): nat {
    match f
    case DispositionCount => 0
    case UnknownContract(i) => 1 + i
    case Contradicts(i) => 1 + i
    case Overlap => 0
    case NotTheWhole => 1
    case NotTheRealised => 2
    case NoBacklog(k) => BacklogPlace(k)
    case BacklogDiffers(k) => BacklogPlace(k)
    case LeftoversDiffer => 5
  }

  function BacklogPlace(k: Kind): (i: nat)
    ensures k in BACKLOGS <==> i < |BACKLOGS|
    ensures i < |BACKLOGS| ==> BACKLOGS[i] == k
  {
    match k
    case TestRungOnly => 0
    case StagingDeploymentOnly => 1
    case LiveProviderOnly => 2
    case IntentionallySemanticOnly => 3
    case DevRealisableLater => 4
    case _ => 5
  }

  const BACKLOGS: seq<Kind> :=
    [TestRungOnly, StagingDeploymentOnly, LiveProviderOnly, IntentionallySemanticOnly, DevRealisableLater]

  /** The summary's name for a backlog; one of the five differs from the triage document's. */
  function Backlog(k: Kind): string {
    if k == DevRealisableLater then "devRealisableLaterBacklog" else Bucket(k)
  }

  /** `row[key]` finds what it asks for in every row. */
  predicate Keyed(rows: seq<Row>) {
    forall r :: r in rows ==> !r.ref.Absent? && !r.classification.Absent?
  }

  /** `by_class.get(cls, set())`. */
  function LookUp(byClass: map<Option<string>, set<Ref>>, c: Option<string>): set<Ref> {
    if c in byClass then byClass[c] else {}
  }

  ghost predicate Grouped(rows: seq<Row>, byClass: map<Option<string>, set<Ref>>) {
    forall c :: LookUp(byClass, c) == ClassRefs(rows, c)
  }

  /** `out.setdefault(cls, set()).add(ref)`. */
  function AddTo(byClass: map<Option<string>, set<Ref>>, row: Row): map<Option<string>, set<Ref>> {
    var c := Get(row.classification);
    byClass[c := LookUp(byClass, c) + {Get(row.ref)}]
  }

  lemma GroupRow(rows: seq<Row>, byClass: map<Option<string>, set<Ref>>, row: Row)
    requires Grouped(rows, byClass)
    ensures Grouped(rows + [row], AddTo(byClass, row))
  {
    forall c ensures LookUp(AddTo(byClass, row), c) == ClassRefs(rows + [row], c) {
      OneMoreRow(rows, row, c);
    }
  }

  /** `sweep_by_class`. */
  method SweepByClass(rows: seq<Row>) returns (result: Result<map<Option<string>, set<Ref>>, KeyError>)
    ensures result.Success? <==> Keyed(rows)
    ensures result.Success? ==> Grouped(rows, result.value)
  {
    var byClass: map<Option<string>, set<Ref>> := map[];
    for i := 0 to |rows|
      invariant Keyed(rows[..i]) && Grouped(rows[..i], byClass)
    {
      if rows[i].ref.Absent? || rows[i].classification.Absent? {
        return Failure(KeyError);
      }
      GroupRow(rows[..i], byClass, rows[i]);
      assert rows[..i + 1] == rows[..i] + [rows[i]];
      byClass := AddTo(byClass, rows[i]);
    }
    assert rows[..|rows|] == rows;
    return Success(byClass);
  }

  /* ---- Rule 005 ---- */

  function Named(rows: seq<Row>, k: Kind): set<Ref> {
    ClassRefs(rows, Some(Name(k)))
  }

  predicate Split(s: Summary) {
    && RefsOf(s.realised) !! RefsOf(s.nonRealised)
    && RefsOf(s.realised) + RefsOf(s.nonRealised) == SweepRefs(s.rows)
    && RefsOf(s.realised) == Named(s.rows, DevRealised) + Named(s.rows, DevRealisableNow)
  }

  lemma DisjointMeansNothingShared<T>(a: set<T>, b: set<T>)
    ensures a !! b <==> a * b == {}
  {
    if a !! b {
      assert a * b == {};
    } else {
      var x :| x in a && x in b;
      assert x in a * b;
    }
  }

  /** The comparisons of rule 005, on the sets it has built. */
  method CompareSplit(realised: set<Ref>, non: set<Ref>, whole: set<Ref>, expected: set<Ref>) returns (findings: seq<Finding>)
    ensures Overlap in findings <==> !(realised !! non)
    ensures NotTheWhole in findings <==> realised + non != whole
    ensures NotTheRealised in findings <==> realised != expected
    ensures findings == [] <==> realised !! non && realised + non == whole && realised == expected
    ensures Ascends(findings, FindingPlace)
  {
    DisjointMeansNothingShared(realised, non);
    findings := [];
    if realised * non != {} {
      findings := findings + [Overlap];
    }
    if realised + non != whole {
      findings := findings + [NotTheWhole];
    }
    if realised != expected {
      findings := findings + [NotTheRealised];
    }
  }

  /** `rule_005_partition_complete`. */
  method Rule005(s: Summary) returns (result: Result<seq<Finding>, KeyError>)
    ensures result.Success? <==> Keyed(s.rows) && Absent !in s.realised && Absent !in s.nonRealised
    ensures result.Success? ==>
              && (Overlap in result.value <==> !(RefsOf(s.realised) !! RefsOf(s.nonRealised)))
              && (NotTheWhole in result.value <==> RefsOf(s.realised) + RefsOf(s.nonRealised) != SweepRefs(s.rows))
              && (NotTheRealised in result.value
                  <==> RefsOf(s.realised) != Named(s.rows, DevRealised) + Named(s.rows, DevRealisableNow))
              && (result.value == [] <==> Split(s)) && Ascends(result.value, FindingPlace)
  {
    if (exists r :: r in s.rows && r.ref.Absent?) || Absent in s.realised || Absent in s.nonRealised {
      return Failure(KeyError);
    }
    var sweepRefs := set r | r in s.rows :: Get(r.ref);
    var realised := set e | e in s.realised :: Get(e);
    var non := set e | e in s.nonRealised :: Get(e);
    var byClass :- SweepByClass(s.rows);
    var expected := LookUp(byClass, Some(Name(DevRealised))) + LookUp(byClass, Some(Name(DevRealisableNow)));
    var findings := CompareSplit(realised, non, sweepRefs, expected);
    return Success(findings);
  }

  /* ---- Rule 006 ---- */

  predicate BacklogFinding(s: Summary, f: Finding) {
    || (f.NoBacklog? && f.kind in BACKLOGS && Backlog(f.kind) !in s.backlogs)
    || (f.BacklogDiffers? && f.kind in BACKLOGS && Backlog(f.kind) in s.backlogs
        && RefsOf(s.backlogs[Backlog(f.kind)]) != Named(s.rows, f.kind))
    || (f.LeftoversDiffer? && RefsOf(s.deprecatedOrRejected) != Named(s.rows, Deprecated) + Named(s.rows, Rejected))
  }

  predicate Backlogged(s: Summary) {
    && (forall k :: k in BACKLOGS ==> Backlog(k) in s.backlogs && RefsOf(s.backlogs[Backlog(k)]) == Named(s.rows, k))
    && RefsOf(s.deprecatedOrRejected) == Named(s.rows, Deprecated) + Named(s.rows, Rejected)
  }

  /** The backlogs of the summary, each with the classification it must hold. */
  const BACKLOG_TO_CLASS: map<string, string> :=
    map["testReadyBacklog" := "test-rung-only", "stagingDeploymentBacklog" := "staging-deployment-only",
        "liveProviderBacklog" := "live-provider-only", "intentionallySemanticOnly" := "intentionally-semantic-only",
        "devRealisableLaterBacklog" := "dev-realisable-later"]

  lemma BacklogOfKind(k: Kind)
    requires k in BACKLOGS
    ensures Backlog(k) in BACKLOG_TO_CLASS && BACKLOG_TO_CLASS[Backlog(k)] == Name(k)
  {
  }

  lemma KindOfBacklog(b: string) returns (k: Kind)
    requires b in BACKLOG_TO_CLASS
    ensures k in BACKLOGS && Backlog(k) == b
  {
    k := if b == "testReadyBacklog" then BACKLOGS[0] else if b == "stagingDeploymentBacklog" then BACKLOGS[1]
      else if b == "liveProviderBacklog" then BACKLOGS[2] else if b == "intentionallySemanticOnly" then BACKLOGS[3]
      else BACKLOGS[4];
  }

  /** Rule 006 is clean exactly when each backlog, by its name, holds the contracts of its classification, and the
      leftovers those deprecated or rejected. */
  lemma BackloggedByName(s: Summary)
    ensures Backlogged(s) <==>
              && (forall b :: b in BACKLOG_TO_CLASS ==>
                    b in s.backlogs && RefsOf(s.backlogs[b]) == ClassRefs(s.rows, Some(BACKLOG_TO_CLASS[b])))
              && RefsOf(s.deprecatedOrRejected) == ClassRefs(s.rows, Some("deprecated")) + ClassRefs(s.rows, Some("rejected"))
  {
    forall k | k in BACKLOGS ensures Backlog(k) in BACKLOG_TO_CLASS && BACKLOG_TO_CLASS[Backlog(k)] == Name(k) {
      BacklogOfKind(k);
    }
    if Backlogged(s) {
      forall b | b in BACKLOG_TO_CLASS
        ensures b in s.backlogs && RefsOf(s.backlogs[b]) == ClassRefs(s.rows, Some(BACKLOG_TO_CLASS[b]))
      {
        var k := KindOfBacklog(b);
        assert k in BACKLOGS;
      }
    }
  }

  lemma BacklogAt(i: nat, findings: seq<Finding>)
    requires i < |BACKLOGS| && Ascends(findings, FindingPlace) && forall f :: f in findings ==> FindingPlace(f) < i
    ensures Ascends(findings + [NoBacklog(BACKLOGS[i])], FindingPlace) && FindingPlace(NoBacklog(BACKLOGS[i])) == i
    ensures Ascends(findings + [BacklogDiffers(BACKLOGS[i])], FindingPlace) && FindingPlace(BacklogDiffers(BACKLOGS[i])) == i
  {
    assert BacklogPlace(BACKLOGS[i]) == i;
    AscendsSnoc(findings, NoBacklog(BACKLOGS[i]), FindingPlace);
    AscendsSnoc(findings, BacklogDiffers(BACKLOGS[i]), FindingPlace);
  }

  /** `rule_006_backlogs_match_sweep`. */
  method Rule006(s: Summary) returns (result: Result<seq<Finding>, KeyError>)
    ensures result.Success? <==> Keyed(s.rows)
    ensures result.Success? ==> forall f :: f in result.value <==> BacklogFinding(s, f)
    ensures result.Success? ==> (result.value == [] <==> Backlogged(s)) && Ascends(result.value, FindingPlace)
  {
    var byClass :- SweepByClass(s.rows);
    var findings := [];
    for i := 0 to |BACKLOGS|
      invariant forall f :: f in findings <==> BacklogFinding(s, f) && !f.LeftoversDiffer? && f.kind in BACKLOGS[..i]
      invariant Ascends(findings, FindingPlace) && forall f :: f in findings ==> FindingPlace(f) < i
    {
      var k := BACKLOGS[i];
      BacklogAt(i, findings);
      assert BACKLOGS[..i + 1] == BACKLOGS[..i] + [k] && k in BACKLOGS;
      if Backlog(k) !in s.backlogs {
        findings := findings + [NoBacklog(k)];
      } else {
        var refs := set e | e in s.backlogs[Backlog(k)] :: Get(e);
        if refs != LookUp(byClass, Some(Name(k))) {
          findings := findings + [BacklogDiffers(k)];
        }
      }
    }
    assert BACKLOGS[..|BACKLOGS|] == BACKLOGS;
    var leftovers := set e | e in s.deprecatedOrRejected :: Get(e);
    if leftovers != LookUp(byClass, Some(Name(Deprecated))) + LookUp(byClass, Some(Name(Rejected))) {
      AscendsSnoc(findings, LeftoversDiffer, FindingPlace);
      findings := findings + [LeftoversDiffer];
    }
    EmptyMeansNone(findings);
    BackloggedIffNothingFound(s);
    return Success(findings);
  }

  lemma BackloggedIffNothingFound(s: Summary)
    ensures Backlogged(s) <==> forall f: Finding :: !BacklogFinding(s, f)
  {
    if forall f: Finding :: !BacklogFinding(s, f) {
      assert !BacklogFinding(s, LeftoversDiffer);
      forall k | k in BACKLOGS ensures Backlog(k) in s.backlogs && RefsOf(s.backlogs[Backlog(k)]) == Named(s.rows, k) {
        assert !BacklogFinding(s, NoBacklog(k)) && !BacklogFinding(s, BacklogDiffers(k));
      }
    }
  }

  /* ---- What clean rules force ---- */

  /** The seven lists: realised items, the five backlogs, and what is deprecated or rejected. */
  function Parts(s: Summary): seq<set<Ref>>
    requires Backlogged(s)
  {
    [RefsOf(s.realised)]
    + seq(|BACKLOGS|, i requires 0 <= i < |BACKLOGS| => RefsOf(s.backlogs[Backlog(BACKLOGS[i])]))
    + [RefsOf(s.deprecatedOrRejected)]
  }

  const GROUPS: seq<set<Kind>> :=
    [{DevRealised, DevRealisableNow}, {TestRungOnly}, {StagingDeploymentOnly}, {LiveProviderOnly},
     {IntentionallySemanticOnly}, {DevRealisableLater}, {Deprecated, Rejected}]

  lemma GroupsCover()
    ensures forall i, j :: 0 <= i < j < |GROUPS| ==> GROUPS[i] !! GROUPS[j]
    ensures forall k :: k in KINDS ==> InSome(GROUPS, k)
  {
    forall k | k in KINDS ensures InSome(GROUPS, k) {
      assert DevRealised in GROUPS[0] && DevRealisableNow in GROUPS[0] && TestRungOnly in GROUPS[1];
      assert StagingDeploymentOnly in GROUPS[2] && LiveProviderOnly in GROUPS[3];
      assert IntentionallySemanticOnly in GROUPS[4] && DevRealisableLater in GROUPS[5];
      assert Deprecated in GROUPS[6] && Rejected in GROUPS[6];
    }
  }

  lemma PairGroup(rows: seq<Row>, k: Kind, l: Kind)
    ensures GroupRefs(rows, {k, l}) == Named(rows, k) + Named(rows, l)
  {
    forall x ensures x in GroupRefs(rows, {k, l}) <==> x in Named(rows, k) + Named(rows, l) {
    }
  }

  lemma BacklogGroup(s: Summary, i: nat)
    requires Backlogged(s) && i < |BACKLOGS|
    ensures GroupRefs(s.rows, GROUPS[i + 1]) == RefsOf(s.backlogs[Backlog(BACKLOGS[i])])
  {
    assert BACKLOGS[i] in BACKLOGS && GROUPS[i + 1] == {BACKLOGS[i]};
    SingleGroup(s.rows, BACKLOGS[i]);
  }

  lemma EndGroups(s: Summary)
    requires Split(s) && Backlogged(s)
    ensures GroupRefs(s.rows, GROUPS[0]) == RefsOf(s.realised) && GroupRefs(s.rows, GROUPS[6]) == RefsOf(s.deprecatedOrRejected)
  {
    assert GROUPS[0] == {DevRealised, DevRealisableNow} && GROUPS[6] == {Deprecated, Rejected};
    PairGroup(s.rows, DevRealised, DevRealisableNow);
    PairGroup(s.rows, Deprecated, Rejected);
  }

  lemma PartIsGroup(s: Summary, i: nat)
    requires Split(s) && Backlogged(s) && i < |GROUPS|
    ensures |Parts(s)| == |GROUPS| && GroupRefs(s.rows, GROUPS[i]) == Parts(s)[i]
  {
    EndGroups(s);
    if 0 < i < 6 {
      BacklogGroup(s, i - 1);
    }
  }

  lemma PartsAreGroups(s: Summary)
    requires Split(s) && Backlogged(s)
    ensures seq(|GROUPS|, i requires 0 <= i < |GROUPS| => GroupRefs(s.rows, GROUPS[i])) == Parts(s)
  {
    PartIsGroup(s, 0);
    forall i | 0 <= i < |GROUPS| ensures GroupRefs(s.rows, GROUPS[i]) == Parts(s)[i] {
      PartIsGroup(s, i);
    }
  }

  /** Clean sweep rules 002 and 004 and clean summary rules 005 and 006 force one partition: the seven lists are
      pairwise disjoint and hold exactly the contracts of the map, in the right number, and the non-realised items
      are exactly what is not realised. */
  lemma SummaryPartition(data: Data, s: Summary)
    requires s.rows == data.rows && Complete(data) && Classified(data.rows)
    requires Split(s) && Backlogged(s)
    ensures Partition(Parts(s), RefsOf(data.mapRows))
    ensures Total(Parts(s)) == data.specContractCount
    ensures RefsOf(s.nonRealised) == Union(Parts(s)[1..])
  {
    GroupsCover();
    GroupsPartition(s.rows, GROUPS);
    PartsAreGroups(s);
    PartitionTotal(Parts(s), RefsOf(data.mapRows));
    NonRealisedIsTheRest(s);
  }

  lemma NonRealisedIsTheRest(s: Summary)
    requires Split(s) && Backlogged(s) && Partition(Parts(s), SweepRefs(s.rows))
    ensures RefsOf(s.nonRealised) == Union(Parts(s)[1..])
  {
    var parts := Parts(s);
    forall x ensures x in Union(parts[1..]) <==> x in RefsOf(s.nonRealised) {
      UnionMembers(parts[1..], x);
      if x in RefsOf(s.nonRealised) {
        var i :| 0 <= i < |parts| && x in parts[i];
        assert parts[1..][i - 1] == parts[i];
      }
      if i :| 0 <= i < |parts[1..]| && x in parts[1..][i] {
        assert x in parts[i + 1] && parts[0] !! parts[i + 1];
      }
    }
  }

  /** The summary's lists are the triage document's buckets. */
  ghost predicate ListsBuckets(data: Data, s: Summary)
    requires Projected(data)
  {
    && (forall k :: k in KINDS ==> Bucket(k) in data.triage)
    && (forall k :: k in BACKLOGS ==> Backlog(k) in s.backlogs && RefsOf(s.backlogs[Backlog(k)]) == RefsOf(data.triage[Bucket(k)]))
    && RefsOf(s.deprecatedOrRejected) == RefsOf(data.triage[Bucket(Deprecated)]) + RefsOf(data.triage[Bucket(Rejected)])
    && RefsOf(s.realised) == RefsOf(data.triage[Bucket(DevRealised)]) + RefsOf(data.triage[Bucket(DevRealisableNow)])
    && RefsOf(s.realised) !! RefsOf(s.nonRealised)
    && RefsOf(s.realised) + RefsOf(s.nonRealised) == SweepRefs(s.rows)
  }

  /** Beside a clean triage document the summary's rules 005 and 006 are silent exactly when its lists are the triage
      document's buckets and the non-realised items are the rest. */
  lemma DocumentsAgree(data: Data, s: Summary)
    requires s.rows == data.rows && Projected(data)
    ensures Split(s) && Backlogged(s) <==> ListsBuckets(data, s)
  {
    forall k | k in KINDS ensures Bucket(k) in data.triage && RefsOf(data.triage[Bucket(k)]) == Named(s.rows, k) {
      EveryKindListed(k);
    }
    EveryKindListed(DevRealised);
    EveryKindListed(DevRealisableNow);
    EveryKindListed(Deprecated);
    EveryKindListed(Rejected);
    forall k | k in BACKLOGS ensures k in KINDS {
      EveryKindListed(k);
    }
  }

  /* ---- Rule 004 ---- */

  /** The dictionary from contract to classification; a later row replaces an earlier one. */
  function SweepMap(rows: seq<Row>): (m: map<Ref, Option<string>>)
    ensures m.Keys == SweepRefs(rows)
  {
    if rows == [] then map[]
    else
      var last := rows[|rows| - 1];
      assert rows == rows[..|rows| - 1] + [last];
      SweepMap(rows[..|rows| - 1])[Get(last.ref) := Get(last.classification)]
  }

  /** The sweep has the classification of the last row about a contract. */
  lemma {:induction false} SweepOfLastRow(rows: seq<Row>, i: nat)
    requires i < |rows| && forall j :: i < j < |rows| ==> Get(rows[j].ref) != Get(rows[i].ref)
    ensures Get(rows[i].ref) in SweepMap(rows) && SweepMap(rows)[Get(rows[i].ref)] == Get(rows[i].classification)
  {
    var n := |rows| - 1;
    if i == n {
    } else {
      forall j | i < j < n ensures Get(rows[..n][j].ref) != Get(rows[..n][i].ref) {
        assert rows[..n][j] == rows[j];
      }
      SweepOfLastRow(rows[..n], i);
    }
  }

  predicate DispositionFinding(s: Summary, f: Finding) {
    var sweep := SweepMap(s.rows);
    match f
    case DispositionCount => |s.dispositions| != |sweep|
    case UnknownContract(i) => i < |s.dispositions| && Get(s.dispositions[i].ref) !in sweep
    case Contradicts(i) =>
      && i < |s.dispositions| && Get(s.dispositions[i].ref) in sweep
      && Get(s.dispositions[i].classification) != sweep[Get(s.dispositions[i].ref)]
    case _ => false
  }

  /** Every disposition repeats the sweep, and there are as many as the sweep has contracts. */
  predicate Dispositioned(s: Summary) {
    var sweep := SweepMap(s.rows);
    && |s.dispositions| == |sweep|
    && forall d :: d in s.dispositions ==> Get(d.ref) in sweep && Get(d.classification) == sweep[Get(d.ref)]
  }

  method CompareDispositions(s: Summary, sweep: map<Ref, Option<string>>) returns (findings: seq<Finding>)
    requires sweep == SweepMap(s.rows)
    ensures forall f :: f in findings <==> DispositionFinding(s, f)
    ensures Ascends(findings, FindingPlace)
  {
    findings := if |s.dispositions| != |sweep| then [DispositionCount] else [];
    for i := 0 to |s.dispositions|
      invariant forall f :: f in findings <==> DispositionFinding(s, f) && (f.DispositionCount? || f.index < i)
      invariant Ascends(findings, FindingPlace)
    {
      var ref := Get(s.dispositions[i].ref);
      var more := [];
      if ref !in sweep {
        AscendsSnoc(findings, UnknownContract(i), FindingPlace);
        more := [UnknownContract(i)];
      } else if Get(s.dispositions[i].classification) != sweep[ref] {
        AscendsSnoc(findings, Contradicts(i), FindingPlace);
        more := [Contradicts(i)];
      }
      assert forall f :: f in more <==> DispositionFinding(s, f) && !f.DispositionCount? && f.index == i;
      findings := findings + more;
    }
  }

  /** `rule_004_dispositions_match_sweep`. */
  method Rule004(s: Summary) returns (result: Result<seq<Finding>, KeyError>)
    ensures result.Success? <==> Keyed(s.rows)
    ensures result.Success? ==> forall f :: f in result.value <==> DispositionFinding(s, f)
    ensures result.Success? ==> (result.value == [] <==> Dispositioned(s)) && Ascends(result.value, FindingPlace)
  {
    if exists r :: r in s.rows && (r.ref.Absent? || r.classification.Absent?) {
      return Failure(KeyError);
    }
    var sweep := BuildSweep(s.rows);
    var findings := CompareDispositions(s, sweep);
    EmptyMeansNone(findings);
    DispositionedIffNothingFound(s);
    return Success(findings);
  }

  method BuildSweep(rows: seq<Row>) returns (sweep: map<Ref, Option<string>>)
    ensures sweep == SweepMap(rows)
  {
    sweep := map[];
    for i := 0 to |rows|
      invariant sweep == SweepMap(rows[..i])
    {
      assert rows[..i + 1][..i] == rows[..i];
      sweep := sweep[Get(rows[i].ref) := Get(rows[i].classification)];
    }
    assert rows[..|rows|] == rows;
  }

  lemma DispositionedIffNothingFound(s: Summary)
    ensures Dispositioned(s) <==> forall f: Finding :: !DispositionFinding(s, f)
  {
    if forall f: Finding :: !DispositionFinding(s, f) {
      assert !DispositionFinding(s, DispositionCount);
      forall d | d in s.dispositions ensures Get(d.ref) in SweepMap(s.rows) && Get(d.classification) == SweepMap(s.rows)[Get(d.ref)] {
        var i :| 0 <= i < |s.dispositions| && s.dispositions[i] == d;
        assert !DispositionFinding(s, UnknownContract(i)) && !DispositionFinding(s, Contradicts(i));
      }
    }
  }

  function Disposed(dispositions: seq<Disposition>): set<Ref> {
    set d | d in dispositions :: Get(d.ref)
  }

  lemma SubsetSize<T>(small: set<T>, large: set<T>)
    requires small <= large
    ensures |small| <= |large|
    ensures |small| == |large| ==> small == large
  {
    assert |large - small| == |large| - |small| by {
      assert large == small + (large - small);
    }
    if |small| == |large| {
      assert large - small == {};
    }
  }

  /** Rule 004 counts dispositions, not contracts: where it is clean, every contract has its disposition exactly when
      none is disposed of twice. */
  lemma DispositionsCoverIffDistinct(s: Summary)
    requires Dispositioned(s)
    ensures Disposed(s.dispositions) == SweepRefs(s.rows) <==> |Disposed(s.dispositions)| == |s.dispositions|
  {
    var sweep := SweepMap(s.rows);
    assert |sweep| == |sweep.Keys|;
    assert Disposed(s.dispositions) <= SweepRefs(s.rows);
    SubsetSize(Disposed(s.dispositions), SweepRefs(s.rows));
  }

  /** Two contracts, one disposed of twice and the other not at all: rule 004 is clean. */
  lemma DispositionsMayOmit() returns (s: Summary)
    ensures Keyed(s.rows) && Dispositioned(s) && Some("b") in SweepRefs(s.rows) && Some("b") !in Disposed(s.dispositions)
  {
    var a := Row(Text("a"), Text(Name(Deprecated)), true);
    var b := Row(Text("b"), Text(Name(Deprecated)), true);
    var d := Disposition(a.ref, a.classification);
    s := Summary([a, b], [d, d], [], [], map[], []);
    assert [a, b][..1] == [a] && [a][..0] == [];
    var none: map<Ref, Option<string>> := map[];
    assert SweepMap([a]) == none[Some("a") := Get(a.classification)];
    assert SweepMap([a, b]) == SweepMap([a])[Some("b") := Get(b.classification)];
    assert |SweepMap([a, b])| == 2;
    assert b in s.rows;
  }
}
