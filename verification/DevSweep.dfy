/** The dev-realisation sweep and its triage document: rules 002, 004 and 010. */
module DevSweep {
  import opened Wrappers

  /** A member of a JSON object that is a string when it is there and not null. */
  datatype Field = Absent | Null | Text(value: string)

  /** `row.get(key)`. */
  function Get(f: Field): Option<string> {
    if f.Text? then Some(f.value) else None
  }

  type Ref = Option<string>

  datatype Row = Row(ref: Field, classification: Field, pathResolves: bool)

  datatype Kind =
    | DevRealised | DevRealisableNow | DevRealisableLater | TestRungOnly | StagingDeploymentOnly
    | LiveProviderOnly | IntentionallySemanticOnly | Deprecated | Rejected

  function Name(k: Kind): string {
    match k
    case DevRealised => "dev-realised"
    case DevRealisableNow => "dev-realisable-now"
    case DevRealisableLater => "dev-realisable-later"
    case TestRungOnly => "test-rung-only"
    case StagingDeploymentOnly => "staging-deployment-only"
    case LiveProviderOnly => "live-provider-only"
    case IntentionallySemanticOnly => "intentionally-semantic-only"
    case Deprecated => "deprecated"
    case Rejected => "rejected"
  }

  /** The triage bucket that must hold exactly the rows of a classification. */
  function Bucket(k: Kind): string {
    match k
    case DevRealised => "devRealised"
    case DevRealisableNow => "devRealisableNow"
    case DevRealisableLater => "devRealisableLater"
    case TestRungOnly => "testReadyBacklog"
    case StagingDeploymentOnly => "stagingDeploymentBacklog"
    case LiveProviderOnly => "liveProviderBacklog"
    case IntentionallySemanticOnly => "intentionallySemanticOnly"
    case Deprecated => "deprecated"
    case Rejected => "rejected"
  }

  const KINDS: seq<Kind> :=
    [DevRealised, DevRealisableNow, DevRealisableLater, TestRungOnly, StagingDeploymentOnly,
     LiveProviderOnly, IntentionallySemanticOnly, Deprecated, Rejected]

  lemma EveryKindListed(k: Kind)
    ensures k in KINDS
  {
    assert KINDS[KindPlace(k)] == k;
  }

  lemma NameInjective(k: Kind, l: Kind)
    requires Name(k) == Name(l)
    ensures k == l
  {
    assert |Name(k)| == |Name(l)| && Name(k)[0] == Name(l)[0];
  }

  predicate Allowed(c: Option<string>) {
    exists k :: k in KINDS && c == Some(Name(k))
  }

  /** The inputs: sweep rows, the contracts of the current-main map, the number of contract files, and the references
      listed under each bucket the triage document has. */
  datatype Data = Data(rows: seq<Row>, mapRows: seq<Field>, specContractCount: nat, triage: map<string, seq<Field>>)

  function RefsOf(entries: seq<Field>): set<Ref> {
    set e | e in entries :: Get(e)
  }

  function SweepRefs(rows: seq<Row>): set<Ref> {
    set r | r in rows :: Get(r.ref)
  }

  /** The contracts classified under a name. */
  function ClassRefs(rows: seq<Row>, c: Option<string>): set<Ref> {
    set r | r in rows && Get(r.classification) == c :: Get(r.ref)
  }

  datatype Failure =
    | WrongCount
    | DuplicateRefs
    | Diverges
    | PathUnresolved(index: nat)
    | InvalidClassification(index: nat)
    | MissingBucket(kind: Kind)
    | NotAProjection(kind: Kind)

  /** Where its rule lists a finding. */
  function Place(f: Failure): nat {
    match f
    case WrongCount => 0
    case DuplicateRefs => 1
    case Diverges => 2
    case PathUnresolved(i) => 3 + i
    case InvalidClassification(i) => i
    case MissingBucket(k) => KindPlace(k)
    case NotAProjection(k) => KindPlace(k)
  }

  function KindPlace(k: Kind): (i: nat)
    ensures i < |KINDS| && KINDS[i] == k
  {
    match k
    case DevRealised => 0
    case DevRealisableNow => 1
    case DevRealisableLater => 2
    case TestRungOnly => 3
    case StagingDeploymentOnly => 4
    case LiveProviderOnly => 5
    case IntentionallySemanticOnly => 6
    case Deprecated => 7
    case Rejected => 8
  }

  /** A list that goes up by place; with its members known, that leaves one list. */
  ghost predicate Ascends<F>(findings: seq<F>, place: F -> nat) {
    forall i, j :: 0 <= i < j < |findings| ==> place(findings[i]) < place(findings[j])
  }

  lemma AscendsSnoc<F>(findings: seq<F>, f: F, place: F -> nat)
    requires Ascends(findings, place) && forall g :: g in findings ==> place(g) < place(f)
    ensures Ascends(findings + [f], place)
  {
    forall i, j | 0 <= i < j < |findings| + 1 ensures place((findings + [f])[i]) < place((findings + [f])[j]) {
      assert findings[i] in findings;
    }
  }

  datatype TypeError = TypeError

  lemma EmptyMeansNone<T(!new)>(s: seq<T>)
    ensures s == [] <==> forall x :: x !in s
  {
    if s != [] {
      assert s[0] in s;
    }
  }

  /* ---- Rule 002 ---- */

  /** `sorted` cannot compare a missing reference with a string. */
  predicate Unsortable(refs: set<Ref>) {
    None in refs && |refs| > 1
  }

  lemma UnsortableIff(refs: set<Ref>)
    ensures Unsortable(refs) <==> None in refs && exists r :: r in refs && r.Some?
  {
    if Unsortable(refs) {
      assert |refs - {None}| > 0;
      var r :| r in refs - {None};
      assert r in refs && r.Some?;
    }
    if None in refs && exists r :: r in refs && r.Some? {
      var r :| r in refs && r.Some?;
      assert {None, r} <= refs;
      assert |refs - {None}| > 0 by { assert r in refs - {None}; }
    }
  }

  predicate Complete(data: Data) {
    && |data.rows| == data.specContractCount
    && |SweepRefs(data.rows)| == |data.rows|
    && SweepRefs(data.rows) == RefsOf(data.mapRows)
    && forall r :: r in data.rows ==> r.pathResolves
  }

  predicate IncompleteFinding(data: Data, f: Failure) {
    match f
    case WrongCount => |data.rows| != data.specContractCount
    case DuplicateRefs => |SweepRefs(data.rows)| != |data.rows|
    case Diverges => SweepRefs(data.rows) != RefsOf(data.mapRows)
    case PathUnresolved(i) => i < |data.rows| && !data.rows[i].pathResolves
    case _ => false
  }

  /** `rule_002_completeness`. */
  method Rule002(data: Data) returns (result: Result<seq<Failure>, TypeError>)
    ensures result.Failure? <==> || Unsortable(RefsOf(data.mapRows) - SweepRefs(data.rows))
                                 || Unsortable(SweepRefs(data.rows) - RefsOf(data.mapRows))
    ensures result.Success? ==> forall f :: f in result.value <==> IncompleteFinding(data, f)
    ensures result.Success? ==> (result.value == [] <==> Complete(data)) && Ascends(result.value, Place)
  {
    var refs := set r | r in data.rows :: Get(r.ref);
    var mapRefs := set e | e in data.mapRows :: Get(e);
    var failures := [];
    if |data.rows| != data.specContractCount {
      failures := failures + [WrongCount];
    }
    if |data.rows| != |refs| {
      failures := failures + [DuplicateRefs];
    }
    if refs != mapRefs {
      if Unsortable(mapRefs - refs) || Unsortable(refs - mapRefs) {
        return Result.Failure(TypeError);
      }
      failures := failures + [Diverges];
    }
    failures := UnresolvedPaths(data, failures);
    EmptyMeansNone(failures);
    CompleteIffNothingFound(data);
    return Success(failures);
  }

  method UnresolvedPaths(data: Data, before: seq<Failure>) returns (failures: seq<Failure>)
    requires forall f :: f in before <==> IncompleteFinding(data, f) && !f.PathUnresolved?
    requires Ascends(before, Place)
    ensures forall f :: f in failures <==> IncompleteFinding(data, f)
    ensures Ascends(failures, Place)
  {
    failures := before;
    for i := 0 to |data.rows|
      invariant forall f :: f in failures <==> IncompleteFinding(data, f) && (f.PathUnresolved? ==> f.index < i)
      invariant Ascends(failures, Place)
    {
      if !data.rows[i].pathResolves {
        AscendsSnoc(failures, PathUnresolved(i), Place);
        failures := failures + [PathUnresolved(i)];
      }
    }
  }

  lemma CompleteIffNothingFound(data: Data)
    ensures Complete(data) <==> forall f: Failure :: !IncompleteFinding(data, f)
  {
    if forall f: Failure :: !IncompleteFinding(data, f) {
      assert !IncompleteFinding(data, WrongCount) && !IncompleteFinding(data, DuplicateRefs);
      assert !IncompleteFinding(data, Diverges);
      forall r | r in data.rows ensures r.pathResolves {
        var i :| 0 <= i < |data.rows| && data.rows[i] == r;
        assert !IncompleteFinding(data, PathUnresolved(i));
      }
    }
  }

  /* ---- Rule 004 ---- */

  predicate Classified(rows: seq<Row>) {
    forall r :: r in rows ==> Allowed(Get(r.classification))
  }

  /** `rule_004_classification_vocab`. */
  method Rule004(data: Data) returns (failures: seq<Failure>)
    ensures forall f :: f in failures <==>
              f.InvalidClassification? && f.index < |data.rows| && !Allowed(Get(data.rows[f.index].classification))
    ensures failures == [] <==> Classified(data.rows)
    ensures Ascends(failures, Place)
  {
    failures := [];
    for i := 0 to |data.rows|
      invariant forall f :: f in failures <==>
                  f.InvalidClassification? && f.index < i && !Allowed(Get(data.rows[f.index].classification))
      invariant Ascends(failures, Place)
    {
      if !Allowed(Get(data.rows[i].classification)) {
        AscendsSnoc(failures, InvalidClassification(i), Place);
        failures := failures + [InvalidClassification(i)];
      }
    }
    if failures == [] {
      forall r | r in data.rows ensures Allowed(Get(r.classification)) {
        var i :| 0 <= i < |data.rows| && data.rows[i] == r;
        assert InvalidClassification(i) !in failures;
      }
    } else {
      assert failures[0] in failures;
    }
  }

  /* ---- Rule 010 ---- */

  /** Each bucket is there and lists exactly the contracts of its classification. */
  predicate Projected(data: Data) {
    forall k :: k in KINDS ==> Bucket(k) in data.triage && RefsOf(data.triage[Bucket(k)]) == ClassRefs(data.rows, Some(Name(k)))
  }

  /** The buckets of the triage document, each with the classification it must hold. */
  const BUCKET_TO_CLASS: map<string, string> :=
    map["devRealised" := "dev-realised", "devRealisableNow" := "dev-realisable-now",
        "devRealisableLater" := "dev-realisable-later", "testReadyBacklog" := "test-rung-only",
        "stagingDeploymentBacklog" := "staging-deployment-only", "liveProviderBacklog" := "live-provider-only",
        "intentionallySemanticOnly" := "intentionally-semantic-only", "deprecated" := "deprecated",
        "rejected" := "rejected"]

  lemma BucketOfKind(k: Kind)
    ensures Bucket(k) in BUCKET_TO_CLASS && BUCKET_TO_CLASS[Bucket(k)] == Name(k)
  {
  }

  lemma KindOfBucket(b: string) returns (k: Kind)
    requires b in BUCKET_TO_CLASS
    ensures Bucket(k) == b
  {
    k := if b == "devRealised" then DevRealised else if b == "devRealisableNow" then DevRealisableNow
      else if b == "devRealisableLater" then DevRealisableLater else if b == "testReadyBacklog" then TestRungOnly
      else if b == "stagingDeploymentBacklog" then StagingDeploymentOnly else if b == "liveProviderBacklog" then LiveProviderOnly
      else if b == "intentionallySemanticOnly" then IntentionallySemanticOnly
      else if b == "deprecated" then Deprecated else Rejected;
  }

  /** Rule 010 is clean exactly when each bucket is there and holds the contracts of its classification. */
  lemma ProjectedByName(data: Data)
    ensures Projected(data) <==> forall b :: b in BUCKET_TO_CLASS ==>
              b in data.triage && RefsOf(data.triage[b]) == ClassRefs(data.rows, Some(BUCKET_TO_CLASS[b]))
  {
    forall k: Kind ensures k in KINDS && Bucket(k) in BUCKET_TO_CLASS && BUCKET_TO_CLASS[Bucket(k)] == Name(k) {
      EveryKindListed(k);
      BucketOfKind(k);
    }
    if Projected(data) {
      forall b | b in BUCKET_TO_CLASS
        ensures b in data.triage && RefsOf(data.triage[b]) == ClassRefs(data.rows, Some(BUCKET_TO_CLASS[b]))
      {
        var k := KindOfBucket(b);
        assert k in KINDS;
      }
    }
  }

  /** Rule 004 allows exactly the classifications some bucket stands for. */
  lemma AllowedByName(c: Option<string>)
    ensures Allowed(c) <==> c.Some? && c.value in BUCKET_TO_CLASS.Values
  {
    if k :| k in KINDS && c == Some(Name(k)) {
      BucketOfKind(k);
    }
    if c.Some? && c.value in BUCKET_TO_CLASS.Values {
      var b :| b in BUCKET_TO_CLASS && BUCKET_TO_CLASS[b] == c.value;
      var k := KindOfBucket(b);
      EveryKindListed(k);
      BucketOfKind(k);
    }
  }

  predicate ProjectionFinding(data: Data, f: Failure) {
    || (f.MissingBucket? && Bucket(f.kind) !in data.triage)
    || (f.NotAProjection? && Bucket(f.kind) in data.triage
        && RefsOf(data.triage[Bucket(f.kind)]) != ClassRefs(data.rows, Some(Name(f.kind))))
  }

  /** A set per classification, holding the contracts of some rows. */
  ghost predicate Tallied(rows: seq<Row>, byClass: map<string, set<Ref>>) {
    && (forall k :: k in KINDS ==> Name(k) in byClass)
    && (forall c :: c in byClass ==> byClass[c] == ClassRefs(rows, Some(c)))
  }

  function EmptySets(): (byClass: map<string, set<Ref>>)
    ensures forall k :: k in KINDS ==> Name(k) in byClass
    ensures forall c :: c in byClass ==> byClass[c] == {}
  {
    map k | k in KINDS :: Name(k) := {}
  }

  /** `if cls in by_class: by_class[cls].add(ref)`. */
  function Tally(byClass: map<string, set<Ref>>, row: Row): map<string, set<Ref>> {
    var cls := Get(row.classification);
    if cls.Some? && cls.value in byClass then byClass[cls.value := byClass[cls.value] + {Get(row.ref)}] else byClass
  }

  lemma TallyRow(rows: seq<Row>, byClass: map<string, set<Ref>>, row: Row)
    requires Tallied(rows, byClass)
    ensures Tallied(rows + [row], Tally(byClass, row))
  {
    var after := Tally(byClass, row);
    forall c | c in after ensures after[c] == ClassRefs(rows + [row], Some(c)) {
      OneMoreRow(rows, row, Some(c));
    }
  }

  lemma OneMoreRow(rows: seq<Row>, row: Row, c: Option<string>)
    ensures ClassRefs(rows + [row], c)
            == if Get(row.classification) == c then ClassRefs(rows, c) + {Get(row.ref)} else ClassRefs(rows, c)
  {
    assert forall r :: r in rows + [row] <==> r in rows || r == row;
  }

  method RowsByClass(rows: seq<Row>) returns (byClass: map<string, set<Ref>>)
    ensures Tallied(rows, byClass)
  {
    byClass := EmptySets();
    for i := 0 to |rows|
      invariant Tallied(rows[..i], byClass)
    {
      TallyRow(rows[..i], byClass, rows[i]);
      assert rows[..i + 1] == rows[..i] + [rows[i]];
      byClass := Tally(byClass, rows[i]);
    }
    assert rows[..|rows|] == rows;
  }

  lemma KindAt(i: nat, failures: seq<Failure>)
    requires i < |KINDS| && Ascends(failures, Place) && forall f :: f in failures ==> Place(f) < i
    ensures Ascends(failures + [MissingBucket(KINDS[i])], Place) && Place(MissingBucket(KINDS[i])) == i
    ensures Ascends(failures + [NotAProjection(KINDS[i])], Place) && Place(NotAProjection(KINDS[i])) == i
  {
    assert KindPlace(KINDS[i]) == i;
    AscendsSnoc(failures, MissingBucket(KINDS[i]), Place);
    AscendsSnoc(failures, NotAProjection(KINDS[i]), Place);
  }

  /** `rule_010_triage_projection`. */
  method Rule010(data: Data) returns (failures: seq<Failure>)
    ensures forall f :: f in failures <==> ProjectionFinding(data, f)
    ensures failures == [] <==> Projected(data)
    ensures Ascends(failures, Place)
  {
    var byClass := RowsByClass(data.rows);
    failures := [];
    for i := 0 to |KINDS|
      invariant forall f :: f in failures <==> ProjectionFinding(data, f) && f.kind in KINDS[..i]
      invariant Ascends(failures, Place) && forall f :: f in failures ==> Place(f) < i
    {
      var k := KINDS[i];
      KindAt(i, failures);
      assert KINDS[..i + 1] == KINDS[..i] + [k] && k in KINDS;
      if Bucket(k) !in data.triage {
        failures := failures + [MissingBucket(k)];
      } else {
        var refs := set e | e in data.triage[Bucket(k)] :: Get(e);
        if refs != byClass[Name(k)] {
          failures := failures + [NotAProjection(k)];
        }
      }
    }
    assert KINDS[..|KINDS|] == KINDS;
    forall f | ProjectionFinding(data, f) ensures f.kind in KINDS {
      EveryKindListed(f.kind);
    }
    EmptyMeansNone(failures);
    ProjectedIffNothingFound(data);
  }

  lemma ProjectedIffNothingFound(data: Data)
    ensures Projected(data) <==> forall f: Failure :: !ProjectionFinding(data, f)
  {
    if forall f: Failure :: !ProjectionFinding(data, f) {
      forall k | k in KINDS ensures Bucket(k) in data.triage && RefsOf(data.triage[Bucket(k)]) == ClassRefs(data.rows, Some(Name(k))) {
        assert !ProjectionFinding(data, MissingBucket(k)) && !ProjectionFinding(data, NotAProjection(k));
      }
    }
    if Projected(data) {
      forall f: Failure ensures !ProjectionFinding(data, f) {
        if f.MissingBucket? || f.NotAProjection? {
          EveryKindListed(f.kind);
        }
      }
    }
  }

  /* ---- What clean rules force ---- */

  function Union(parts: seq<set<Ref>>): set<Ref> {
    if parts == [] then {} else parts[0] + Union(parts[1..])
  }

  function Total(parts: seq<set<Ref>>): nat {
    if parts == [] then 0 else |parts[0]| + Total(parts[1..])
  }

  /** The parts are pairwise disjoint and make up the whole. */
  ghost predicate Partition(parts: seq<set<Ref>>, whole: set<Ref>) {
    && (forall i, j :: 0 <= i < j < |parts| ==> parts[i] !! parts[j])
    && (forall x :: x in whole <==> exists i :: 0 <= i < |parts| && x in parts[i])
  }

  lemma {:induction false} UnionMembers(parts: seq<set<Ref>>, x: Ref)
    ensures x in Union(parts) <==> exists i :: 0 <= i < |parts| && x in parts[i]
  {
    if parts == [] {
    } else {
      UnionMembers(parts[1..], x);
      if i :| 0 <= i < |parts| && x in parts[i] {
        if i > 0 {
          assert x in parts[1..][i - 1];
        }
      }
    }
  }

  lemma {:induction false} DisjointTotal(parts: seq<set<Ref>>)
    requires forall i, j :: 0 <= i < j < |parts| ==> parts[i] !! parts[j]
    ensures |Union(parts)| == Total(parts)
  {
    if parts == [] {
    } else {
      DisjointTotal(parts[1..]);
      forall x | x in Union(parts[1..]) ensures x !in parts[0] {
        UnionMembers(parts[1..], x);
        var i :| 0 <= i < |parts[1..]| && x in parts[1..][i];
        assert parts[0] !! parts[i + 1];
      }
      assert parts[0] !! Union(parts[1..]);
    }
  }

  lemma PartitionTotal(parts: seq<set<Ref>>, whole: set<Ref>)
    requires Partition(parts, whole)
    ensures Total(parts) == |whole|
  {
    DisjointTotal(parts);
    forall x ensures x in Union(parts) <==> x in whole {
      UnionMembers(parts, x);
    }
    assert Union(parts) == whole;
  }

  /** No reference occurs twice in a list. */
  predicate NoRepeat(entries: seq<Field>) {
    forall i, j :: 0 <= i < j < |entries| ==> Get(entries[i]) != Get(entries[j])
  }

  lemma NoRepeatGrows(before: seq<Field>, last: Field)
    ensures NoRepeat(before + [last]) <==> NoRepeat(before) && Get(last) !in RefsOf(before)
    ensures RefsOf(before + [last]) == RefsOf(before) + {Get(last)}
  {
    var n, all := |before|, before + [last];
    assert forall i :: 0 <= i < n ==> all[i] == before[i] && before[i] in before;
    if Get(last) in RefsOf(before) {
      var i :| 0 <= i < n && Get(before[i]) == Get(last);
      assert Get(all[i]) == Get(all[n]);
    }
  }

  /** A list has at least as many entries as references, and as many exactly when none repeats. */
  lemma {:induction false} SizeIffNoRepeat(entries: seq<Field>)
    ensures |RefsOf(entries)| <= |entries|
    ensures |RefsOf(entries)| == |entries| <==> NoRepeat(entries)
  {
    if entries == [] {
    } else {
      var before, last := entries[..|entries| - 1], entries[|entries| - 1];
      SizeIffNoRepeat(before);
      NoRepeatGrows(before, last);
      assert entries == before + [last];
    }
  }

  function RowRefs(rows: seq<Row>): seq<Field> {
    seq(|rows|, i requires 0 <= i < |rows| => rows[i].ref)
  }

  /** As many references as rows means no two rows share one. */
  lemma NoTwoShare(rows: seq<Row>)
    requires |SweepRefs(rows)| == |rows|
    ensures forall i, j :: 0 <= i < j < |rows| ==> Get(rows[i].ref) != Get(rows[j].ref)
  {
    var refs := RowRefs(rows);
    forall x ensures x in RefsOf(refs) <==> x in SweepRefs(rows) {
      if r :| r in rows && Get(r.ref) == x {
        var i :| 0 <= i < |rows| && rows[i] == r;
        assert refs[i] in refs;
      }
    }
    assert RefsOf(refs) == SweepRefs(rows);
    SizeIffNoRepeat(refs);
    forall i, j | 0 <= i < j < |rows| ensures Get(rows[i].ref) != Get(rows[j].ref) {
      assert Get(refs[i]) != Get(refs[j]);
    }
  }

  /** The contracts of a group of classifications. */
  function GroupRefs(rows: seq<Row>, group: set<Kind>): set<Ref> {
    set r, k | r in rows && k in group && Get(r.classification) == Some(Name(k)) :: Get(r.ref)
  }

  ghost predicate InSome(groups: seq<set<Kind>>, k: Kind) {
    exists i :: 0 <= i < |groups| && k in groups[i]
  }

  /** Grouping the nine classifications in any way groups the contracts: disjoint groups that leave no classification
      out partition the sweep. */
  lemma GroupsPartition(rows: seq<Row>, groups: seq<set<Kind>>)
    requires |SweepRefs(rows)| == |rows| && Classified(rows)
    requires forall i, j :: 0 <= i < j < |groups| ==> groups[i] !! groups[j]
    requires forall k :: k in KINDS ==> InSome(groups, k)
    ensures Partition(seq(|groups|, i requires 0 <= i < |groups| => GroupRefs(rows, groups[i])), SweepRefs(rows))
  {
    var parts := seq(|groups|, i requires 0 <= i < |groups| => GroupRefs(rows, groups[i]));
    forall i, j | 0 <= i < j < |groups| ensures parts[i] !! parts[j] {
      forall x | x in parts[i] ensures x !in parts[j] {
        GroupsApart(rows, groups[i], groups[j], x);
      }
    }
    forall x ensures x in SweepRefs(rows) <==> exists i :: 0 <= i < |parts| && x in parts[i] {
      if x in SweepRefs(rows) {
        var r :| r in rows && Get(r.ref) == x;
        var k :| k in KINDS && Get(r.classification) == Some(Name(k));
        assert InSome(groups, k);
        var i :| 0 <= i < |groups| && k in groups[i];
        assert x in parts[i];
      }
    }
  }

  lemma GroupsApart(rows: seq<Row>, g: set<Kind>, h: set<Kind>, x: Ref)
    requires |SweepRefs(rows)| == |rows| && g !! h && x in GroupRefs(rows, g)
    ensures x !in GroupRefs(rows, h)
  {
    NoTwoShare(rows);
    var r, k :| r in rows && k in g && Get(r.classification) == Some(Name(k)) && Get(r.ref) == x;
    forall s, l | s in rows && l in h && Get(s.classification) == Some(Name(l)) ensures Get(s.ref) != x {
      if r == s {
        NameInjective(k, l);
      } else {
        var i :| 0 <= i < |rows| && rows[i] == r;
        var j :| 0 <= j < |rows| && rows[j] == s;
        assert if i < j then Get(rows[i].ref) != Get(rows[j].ref) else Get(rows[j].ref) != Get(rows[i].ref);
      }
    }
  }

  /** The nine buckets of the triage document. */
  function Buckets(data: Data): seq<set<Ref>>
    requires Projected(data)
  {
    seq(|KINDS|, i requires 0 <= i < |KINDS| => RefsOf(data.triage[Bucket(KINDS[i])]))
  }

  function Singletons(): (g: seq<set<Kind>>)
    ensures |g| == |KINDS| && forall i :: 0 <= i < |g| ==> g[i] == {KINDS[i]}
  {
    seq(|KINDS|, i requires 0 <= i < |KINDS| => {KINDS[i]})
  }

  lemma SingletonsCover()
    ensures forall k :: k in KINDS ==> InSome(Singletons(), k)
  {
    forall k | k in KINDS ensures InSome(Singletons(), k) {
      var i :| 0 <= i < |KINDS| && KINDS[i] == k;
      assert k in Singletons()[i];
    }
  }

  /** Clean rules 002, 004 and 010 force one consistent partition: the nine buckets are pairwise disjoint, together
      they hold exactly the contracts of the map, and their sizes add up to the number of contract files. */
  lemma SweepPartition(data: Data)
    requires Complete(data) && Classified(data.rows) && Projected(data)
    ensures Partition(Buckets(data), RefsOf(data.mapRows))
    ensures Total(Buckets(data)) == |RefsOf(data.mapRows)| == data.specContractCount
  {
    var groups := Singletons();
    SingletonsCover();
    GroupsPartition(data.rows, groups);
    BucketsAreGroups(data, groups);
    PartitionTotal(Buckets(data), RefsOf(data.mapRows));
  }

  lemma BucketsAreGroups(data: Data, groups: seq<set<Kind>>)
    requires Projected(data) && groups == Singletons()
    ensures seq(|groups|, i requires 0 <= i < |groups| => GroupRefs(data.rows, groups[i])) == Buckets(data)
  {
    forall i | 0 <= i < |KINDS| ensures GroupRefs(data.rows, groups[i]) == RefsOf(data.triage[Bucket(KINDS[i])]) {
      assert KINDS[i] in KINDS;
      SingleGroup(data.rows, KINDS[i]);
    }
  }

  lemma SingleGroup(rows: seq<Row>, k: Kind)
    ensures GroupRefs(rows, {k}) == ClassRefs(rows, Some(Name(k)))
  {
  }

  /** The nine lists of the triage document. */
  function Lists(data: Data): seq<seq<Field>>
    requires Projected(data)
  {
    seq(|KINDS|, i requires 0 <= i < |KINDS| => data.triage[Bucket(KINDS[i])])
  }

  function Lengths(lists: seq<seq<Field>>): nat {
    if lists == [] then 0 else |lists[0]| + Lengths(lists[1..])
  }

  lemma {:induction false} LengthsIff(lists: seq<seq<Field>>, parts: seq<set<Ref>>)
    requires |parts| == |lists| && forall i :: 0 <= i < |lists| ==> parts[i] == RefsOf(lists[i])
    ensures Total(parts) <= Lengths(lists)
    ensures Total(parts) == Lengths(lists) <==> forall i :: 0 <= i < |lists| ==> NoRepeat(lists[i])
  {
    if lists == [] {
    } else {
      LengthsIff(lists[1..], parts[1..]);
      SizeIffNoRepeat(lists[0]);
      assert forall i :: 0 < i < |lists| ==> lists[i] == lists[1..][i - 1];
      assert forall i :: 0 <= i < |lists[1..]| ==> lists[1..][i] == lists[i + 1];
    }
  }

  /** The rules compare which contracts a bucket lists, not how often. Where they are clean, the lengths of the nine lists
      add up to the number of contract files exactly when no bucket lists a contract twice; otherwise they exceed it. */
  lemma ListsAddUpIff(data: Data)
    requires Complete(data) && Classified(data.rows) && Projected(data)
    ensures Lengths(Lists(data)) >= data.specContractCount
    ensures Lengths(Lists(data)) == data.specContractCount
            <==> forall k :: k in KINDS ==> NoRepeat(data.triage[Bucket(k)])
  {
    SweepPartition(data);
    var lists := Lists(data);
    LengthsIff(lists, Buckets(data));
    if forall i :: 0 <= i < |lists| ==> NoRepeat(lists[i]) {
      forall k | k in KINDS ensures NoRepeat(data.triage[Bucket(k)]) {
        var i :| 0 <= i < |KINDS| && KINDS[i] == k;
        assert NoRepeat(lists[i]);
      }
    }
    if forall k :: k in KINDS ==> NoRepeat(data.triage[Bucket(k)]) {
      forall i | 0 <= i < |lists| ensures NoRepeat(lists[i]) {
        assert KINDS[i] in KINDS;
      }
    }
  }

  /** Listing a contract once more in its bucket goes unreported, and the lengths no longer add up. */
  lemma RepeatedEntryUnseen(data: Data, k: Kind, e: Field)
    requires Projected(data) && k in KINDS && e in data.triage[Bucket(k)]
    ensures var longer := data.(triage := data.triage[Bucket(k) := data.triage[Bucket(k)] + [e]]);
            && Projected(longer)
            && (Complete(data) && Classified(data.rows) ==> Lengths(Lists(longer)) > data.specContractCount)
  {
    var list := data.triage[Bucket(k)];
    var longer := data.(triage := data.triage[Bucket(k) := list + [e]]);
    assert RefsOf(list + [e]) == RefsOf(list);
    var i :| 0 <= i < |list| && list[i] == e;
    assert (list + [e])[i] == (list + [e])[|list|];
    if Complete(data) && Classified(data.rows) {
      ListsAddUpIff(longer);
    }
  }
}
