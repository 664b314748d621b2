/** Bootstrap mappings against semantic contracts: rule 008 and the generated index. */
module BootstrapMappings {
  import opened Wrappers

  type Domain = Option<string>

  datatype Gate = OtherGate | Gate(namesRestricted: bool, deferred: bool, claimsNothing: bool)

  /** A mapping record as far as rule 008 looks at it. `ref` is absent when it is not a string; `schemaErrors` counts
      what the JSON Schema validator objects to; `unclassified` counts expectations without a classification. */
  datatype Record =
    | NotARecord
    | Unparsable
    | Record(ref: Option<string>, domain: Domain, sourceRefs: set<string>, gates: seq<Gate>,
             schemaErrors: nat, unclassified: nat)

  datatype Semantic = Semantic(domain: Domain, sourceRefs: set<string>)

  datatype State = State(schemaUsable: bool, mappings: map<string, Record>, semantics: map<string, Semantic>)

  datatype Finding =
    | SchemaUnusable
    | NoMappings
    | NotAnObject(path: string)
    | LoadError(path: string)
    | SchemaError(path: string)
    | UnknownContract(path: string)
    | DomainDiffers(path: string)
    | SourceRefsMissing(path: string, refs: set<string>)
    | GateNotDeferred(path: string)
    | GateClaimsProof(path: string)
    | ExpectationUnclassified(path: string)
    | NoMapping(ref: string)
    | MultipleMappings(ref: string)
    | DuplicateMappings(ref: string)

  /* ---- What rule 008 asks of one record ---- */

  predicate GateOk(g: Gate) {
    g.Gate? && g.namesRestricted ==> g.deferred && g.claimsNothing
  }

  predicate RecordOk(state: State, r: Record) {
    && r.Record?
    && (state.schemaUsable ==> r.schemaErrors == 0)
    && r.ref.Some? && r.ref.value in state.semantics
    && r.domain == state.semantics[r.ref.value].domain
    && state.semantics[r.ref.value].sourceRefs <= r.sourceRefs
    && (forall g :: g in r.gates ==> GateOk(g))
    && r.unclassified == 0
  }

  function Missing(required: set<string>, given: set<string>): (m: set<string>)
    ensures m == {} <==> required <= given
  {
    var m := required - given;
    assert forall x :: x in required && x !in given ==> x in m;
    m
  }

  /** The findings the record loop makes; each names the record's path. */
  predicate IsRecordFinding(f: Finding) {
    || f.NotAnObject? || f.LoadError? || f.SchemaError? || f.UnknownContract? || f.DomainDiffers?
    || f.SourceRefsMissing? || f.GateNotDeferred? || f.GateClaimsProof? || f.ExpectationUnclassified?
  }

  predicate Concerns(findings: set<Finding>, path: string) {
    forall f :: f in findings ==> IsRecordFinding(f) && f.path == path
  }

  function If(condition: bool, f: Finding): set<Finding> {
    if condition then {f} else {}
  }

  /** The findings about a reference that does not resolve, or about what it resolves to. */
  function ReferenceFindings(state: State, path: string, r: Record): (found: set<Finding>)
    requires r.Record?
    ensures found == {} <==> && r.ref.Some? && r.ref.value in state.semantics
                             && r.domain == state.semantics[r.ref.value].domain
                             && state.semantics[r.ref.value].sourceRefs <= r.sourceRefs
    ensures Concerns(found, path)
  {
    if r.ref.None? || r.ref.value !in state.semantics then {UnknownContract(path)}
    else
      var s := state.semantics[r.ref.value];
      var missing := Missing(s.sourceRefs, r.sourceRefs);
      If(r.domain != s.domain, DomainDiffers(path)) + If(missing != {}, SourceRefsMissing(path, missing))
  }

  function GateFindings(path: string, gates: seq<Gate>): (found: set<Finding>)
    ensures found == {} <==> forall g :: g in gates ==> GateOk(g)
    ensures Concerns(found, path)
  {
    If(exists g :: g in gates && g.Gate? && g.namesRestricted && !g.deferred, GateNotDeferred(path))
    + If(exists g :: g in gates && g.Gate? && g.namesRestricted && !g.claimsNothing, GateClaimsProof(path))
  }

  /** The findings of the record loop for one record. */
  function RecordFindings(state: State, path: string, r: Record): (found: set<Finding>)
    ensures found == {} <==> RecordOk(state, r)
    ensures Concerns(found, path)
  {
    match r
    case NotARecord => {NotAnObject(path)}
    case Unparsable => {LoadError(path)}
    case Record(_, _, _, gates, schemaErrors, unclassified) =>
      If(state.schemaUsable && schemaErrors > 0, SchemaError(path))
      + ReferenceFindings(state, path, r) + GateFindings(path, gates)
      + If(unclassified > 0, ExpectationUnclassified(path))
  }

  /** What cannot be read as a record is reported as that, and for nothing else. */
  lemma UnreadableReported(state: State, path: string)
    ensures RecordFindings(state, path, NotARecord) == {NotAnObject(path)}
    ensures RecordFindings(state, path, Unparsable) == {LoadError(path)}
  {
  }

  /** The paths whose record refers to a contract. */
  function PathsFor(mappings: map<string, Record>, ref: string): set<string> {
    set p | p in mappings && mappings[p].Record? && mappings[p].ref == Some(ref)
  }

  /** Rule 008 is silent. */
  ghost predicate Clean(state: State) {
    && state.schemaUsable
    && state.mappings != map[]
    && (forall p :: p in state.mappings ==> RecordOk(state, state.mappings[p]))
    && (forall ref :: ref in state.semantics ==> |PathsFor(state.mappings, ref)| == 1)
  }

  predicate RecordFinding(state: State, f: Finding) {
    IsRecordFinding(f) && f.path in state.mappings && f in RecordFindings(state, f.path, state.mappings[f.path])
  }

  predicate ContractFinding(state: State, f: Finding) {
    || (f.NoMapping? && f.ref in state.semantics && PathsFor(state.mappings, f.ref) == {})
    || (f.MultipleMappings? && f.ref in state.semantics && |PathsFor(state.mappings, f.ref)| > 1)
  }

  predicate DuplicateFinding(state: State, f: Finding) {
    f.DuplicateMappings? && |PathsFor(state.mappings, f.ref)| > 1
  }

  /** The findings rule 008 owes a state. */
  predicate Owed(state: State, f: Finding) {
    || (f.SchemaUnusable? && !state.schemaUsable)
    || (f.NoMappings? && state.mappings == map[])
    || RecordFinding(state, f) || ContractFinding(state, f) || DuplicateFinding(state, f)
  }

  /** What `mapping_refs.get(ref, [])` holds. */
  function Get(mappingRefs: map<string, set<string>>, ref: string): set<string> {
    if ref in mappingRefs then mappingRefs[ref] else {}
  }

  /** The loop over records. */
  method CheckRecords(state: State) returns (findings: set<Finding>, mappingRefs: map<string, set<string>>)
    ensures forall ref :: Get(mappingRefs, ref) == PathsFor(state.mappings, ref)
    ensures forall f :: f in findings <==> RecordFinding(state, f)
  {
    findings := {};
    mappingRefs := map[];
    var pending := state.mappings.Keys;
    while pending != {}
      invariant pending <= state.mappings.Keys
      invariant forall ref :: Get(mappingRefs, ref) == PathsFor(state.mappings, ref) - pending
      invariant forall f :: f in findings <==> RecordFinding(state, f) && f.path !in pending
      decreases pending
    {
      var p :| p in pending;
      var r := state.mappings[p];
      findings := findings + RecordFindings(state, p, r);
      if r.Record? && r.ref.Some? {
        mappingRefs := mappingRefs[r.ref.value := Get(mappingRefs, r.ref.value) + {p}];
      }
      pending := pending - {p};
    }
  }

  /** The loop over contracts. */
  method ReportContracts(state: State, mappingRefs: map<string, set<string>>) returns (findings: set<Finding>)
    requires forall ref :: Get(mappingRefs, ref) == PathsFor(state.mappings, ref)
    ensures forall f :: f in findings <==> ContractFinding(state, f)
  {
    findings := {};
    var pending := state.semantics.Keys;
    while pending != {}
      invariant pending <= state.semantics.Keys
      invariant forall f :: f in findings <==> ContractFinding(state, f) && f.ref !in pending
      decreases pending
    {
      var ref :| ref in pending;
      var paths := Get(mappingRefs, ref);
      if paths == {} {
        findings := findings + {NoMapping(ref)};
      } else if |paths| > 1 {
        findings := findings + {MultipleMappings(ref)};
      }
      pending := pending - {ref};
    }
  }

  /** The loop over collected references. */
  method ReportDuplicates(state: State, mappingRefs: map<string, set<string>>) returns (findings: set<Finding>)
    requires forall ref :: Get(mappingRefs, ref) == PathsFor(state.mappings, ref)
    ensures forall f :: f in findings <==> DuplicateFinding(state, f)
  {
    findings := {};
    var pending := mappingRefs.Keys;
    while pending != {}
      invariant pending <= mappingRefs.Keys
      invariant forall f :: f in findings <==> DuplicateFinding(state, f) && f.ref !in pending
      decreases pending
    {
      var ref :| ref in pending;
      assert mappingRefs[ref] == Get(mappingRefs, ref);
      if |mappingRefs[ref]| > 1 {
        findings := findings + {DuplicateMappings(ref)};
      }
      pending := pending - {ref};
    }
  }

  /** `check_bootstrap_mappings`, as far as rule 008 goes: it reports what it owes, and nothing exactly on a clean
      state. */
  method CheckBootstrapMappings(state: State) returns (findings: set<Finding>)
    ensures forall f :: f in findings <==> Owed(state, f)
    ensures findings == {} <==> Clean(state)
  {
    var records, mappingRefs := CheckRecords(state);
    var contracts := ReportContracts(state, mappingRefs);
    var duplicates := ReportDuplicates(state, mappingRefs);
    findings := If(!state.schemaUsable, SchemaUnusable) + If(state.mappings == map[], NoMappings)
                + records + contracts + duplicates;
    assert forall f :: f in findings <==> Owed(state, f);
    NothingOwedIffClean(state);
    assert findings == {} <==> forall f :: f !in findings;
  }

  lemma NothingOwedIffClean(state: State)
    ensures (forall f: Finding :: !Owed(state, f)) <==> Clean(state)
  {
    if forall f: Finding :: !Owed(state, f) {
      assert !Owed(state, SchemaUnusable) && !Owed(state, NoMappings);
      forall p | p in state.mappings ensures RecordOk(state, state.mappings[p]) {
        SilentRecord(state, p);
      }
      forall ref | ref in state.semantics ensures |PathsFor(state.mappings, ref)| == 1 {
        assert !Owed(state, NoMapping(ref)) && !Owed(state, MultipleMappings(ref));
      }
    }
    if Clean(state) {
      forall f: Finding ensures !Owed(state, f) {
      }
    }
  }

  lemma SilentRecord(state: State, p: string)
    requires p in state.mappings && forall f: Finding :: !Owed(state, f)
    ensures RecordOk(state, state.mappings[p])
  {
    var found := RecordFindings(state, p, state.mappings[p]);
    forall f | f in found ensures false {
      assert Owed(state, f);
    }
    assert found == {};
  }

  /* ---- What a clean check forces ---- */

  lemma SingletonMember<T>(s: set<T>, x: T, y: T)
    requires |s| == 1 && x in s && y in s
    ensures x == y
  {
    assert |s - {x}| == 0;
    assert s == {x} + (s - {x});
  }

  /** The contract a record is about. */
  function ContractOf(state: State, path: string): string
    requires path in state.mappings && RecordOk(state, state.mappings[path])
  {
    state.mappings[path].ref.value
  }

  /** Mapping records and semantic contracts correspond one to one, domains included. */
  ghost predicate Bijection(state: State) {
    && (forall p :: p in state.mappings ==> RecordOk(state, state.mappings[p]))
    && (forall p, q :: p in state.mappings && q in state.mappings && ContractOf(state, p) == ContractOf(state, q) ==> p == q)
    && (forall ref :: ref in state.semantics ==> exists p :: p in state.mappings && ContractOf(state, p) == ref)
  }

  /** Rule 008 is silent exactly when the schema works, there are records, every record is in order, and records and
      contracts correspond one to one. */
  lemma CleanIffBijection(state: State)
    ensures Clean(state) <==> state.schemaUsable && state.mappings != map[] && Bijection(state)
  {
    if Clean(state) {
      CleanPairs(state);
    }
    if Bijection(state) {
      forall ref | ref in state.semantics ensures |PathsFor(state.mappings, ref)| == 1 {
        OnePath(state, ref);
      }
    }
  }

  lemma CleanPairs(state: State)
    requires Clean(state)
    ensures Bijection(state)
  {
    forall p, q | p in state.mappings && q in state.mappings && ContractOf(state, p) == ContractOf(state, q) ensures p == q {
      SingletonMember(PathsFor(state.mappings, ContractOf(state, p)), p, q);
    }
    forall ref | ref in state.semantics ensures exists p :: p in state.mappings && ContractOf(state, p) == ref {
      var p :| p in PathsFor(state.mappings, ref);
      assert RecordOk(state, state.mappings[p]);
    }
  }

  lemma OnePath(state: State, ref: string)
    requires Bijection(state) && ref in state.semantics
    ensures |PathsFor(state.mappings, ref)| == 1
  {
    var p :| p in state.mappings && ContractOf(state, p) == ref;
    var paths := PathsFor(state.mappings, ref);
    InPathsFor(state, ref, p);
    forall q | q in paths ensures q == p {
      SamePath(state, ref, p, q);
    }
    OneMember(paths, p);
  }

  lemma OneMember<T>(s: set<T>, x: T)
    requires x in s && forall y :: y in s ==> y == x
    ensures |s| == 1
  {
    assert s == {x};
  }

  lemma InPathsFor(state: State, ref: string, p: string)
    requires p in state.mappings && RecordOk(state, state.mappings[p]) && ContractOf(state, p) == ref
    ensures p in PathsFor(state.mappings, ref)
  {
  }

  lemma SamePath(state: State, ref: string, p: string, q: string)
    requires Bijection(state) && p in state.mappings && ContractOf(state, p) == ref && q in PathsFor(state.mappings, ref)
    ensures q == p
  {
    assert ContractOf(state, q) == ref;
  }

  /* ---- The generated index ---- */

  datatype Index = Index(mappingCount: nat, semanticContractCount: nat, domainCounts: map<Domain, nat>)

  /** The records the index lists. */
  function Indexed(mappings: map<string, Record>): set<string> {
    set p | p in mappings && mappings[p].Record?
  }

  /** The records of a domain among some paths. */
  function OfDomain(mappings: map<string, Record>, paths: set<string>, domain: Domain): set<string> {
    set p | p in paths && p in mappings && mappings[p].Record? && mappings[p].domain == domain
  }

  function ContractsIn(semantics: map<string, Semantic>, domain: Domain): set<string> {
    set ref | ref in semantics && semantics[ref].domain == domain
  }

  /** The counts are those of the given paths, with a key for each domain that occurs. */
  ghost predicate Counted(mappings: map<string, Record>, paths: set<string>, counts: map<Domain, nat>) {
    && (forall d :: d in counts <==> OfDomain(mappings, paths, d) != {})
    && (forall d :: d in counts ==> counts[d] == |OfDomain(mappings, paths, d)|)
  }

  lemma OneMoreOfDomain(mappings: map<string, Record>, paths: set<string>, p: string, d: Domain)
    requires p in Indexed(mappings) && p !in paths
    ensures mappings[p].domain == d ==> && OfDomain(mappings, paths + {p}, d) == OfDomain(mappings, paths, d) + {p}
                                        && |OfDomain(mappings, paths + {p}, d)| == |OfDomain(mappings, paths, d)| + 1
    ensures mappings[p].domain != d ==> OfDomain(mappings, paths + {p}, d) == OfDomain(mappings, paths, d)
  {
    if mappings[p].domain == d {
      assert OfDomain(mappings, paths + {p}, d) == OfDomain(mappings, paths, d) + {p};
    } else {
      assert OfDomain(mappings, paths + {p}, d) == OfDomain(mappings, paths, d);
    }
  }

  /** `domain_counts[domain] = domain_counts.get(domain, 0) + 1`. */
  function Bump(counts: map<Domain, nat>, d: Domain): map<Domain, nat> {
    counts[d := (if d in counts then counts[d] else 0) + 1]
  }

  lemma CountOneMore(mappings: map<string, Record>, paths: set<string>, counts: map<Domain, nat>, p: string)
    requires Counted(mappings, paths, counts) && p in Indexed(mappings) && p !in paths
    ensures Counted(mappings, paths + {p}, Bump(counts, mappings[p].domain))
  {
    var more := Bump(counts, mappings[p].domain);
    forall d ensures d in more <==> OfDomain(mappings, paths + {p}, d) != {} {
      OneMoreOfDomain(mappings, paths, p, d);
    }
    forall d | d in more ensures more[d] == |OfDomain(mappings, paths + {p}, d)| {
      OneMoreOfDomain(mappings, paths, p, d);
    }
  }

  lemma CountStep(mappings: map<string, Record>, pending: set<string>, counts: map<Domain, nat>, p: string)
    requires p in pending && pending <= Indexed(mappings) && Counted(mappings, Indexed(mappings) - pending, counts)
    ensures Counted(mappings, Indexed(mappings) - (pending - {p}), Bump(counts, mappings[p].domain))
  {
    CountOneMore(mappings, Indexed(mappings) - pending, counts, p);
    assert Indexed(mappings) - (pending - {p}) == Indexed(mappings) - pending + {p};
  }

  /** The counts of `expected_mapping_index`. */
  method ExpectedMappingIndex(state: State) returns (index: Index)
    ensures index.mappingCount == |Indexed(state.mappings)| && index.semanticContractCount == |state.semantics|
    ensures Counted(state.mappings, Indexed(state.mappings), index.domainCounts)
  {
    var items := set p | p in state.mappings && state.mappings[p].Record?;
    var counts: map<Domain, nat> := map[];
    var pending := items;
    while pending != {}
      invariant pending <= items == Indexed(state.mappings)
      invariant Counted(state.mappings, Indexed(state.mappings) - pending, counts)
      decreases pending
    {
      var p :| p in pending;
      CountStep(state.mappings, pending, counts, p);
      counts := Bump(counts, state.mappings[p].domain);
      pending := pending - {p};
    }
    assert Indexed(state.mappings) - {} == Indexed(state.mappings);
    return Index(|items|, |state.semantics|, counts);
  }

  ghost function Pick(counts: map<Domain, nat>): (d: Domain)
    requires counts != map[]
    ensures d in counts
  {
    var d :| d in counts; d
  }

  ghost function Sum(counts: map<Domain, nat>): nat
    decreases counts.Keys
  {
    if counts == map[] then 0 else counts[Pick(counts)] + Sum(counts - {Pick(counts)})
  }

  lemma {:induction false} DomainsAddUp(mappings: map<string, Record>, paths: set<string>, counts: map<Domain, nat>)
    requires paths <= Indexed(mappings) && Counted(mappings, paths, counts)
    ensures Sum(counts) == |paths|
    decreases counts.Keys
  {
    if counts == map[] {
      forall p | p in paths ensures p in OfDomain(mappings, paths, mappings[p].domain) {
      }
      assert paths == {};
    } else {
      var d := Pick(counts);
      var here := OfDomain(mappings, paths, d);
      var rest := paths - here;
      assert paths == here + rest;
      forall e ensures OfDomain(mappings, rest, e) == if e == d then {} else OfDomain(mappings, paths, e) {
      }
      DomainsAddUp(mappings, rest, counts - {d});
    }
  }

  /** A one-to-one correspondence between two sets equates their sizes. */
  lemma {:induction false} ImageSize(f: map<string, string>, from: set<string>, to: set<string>)
    requires from <= f.Keys
    requires forall p, q :: p in from && q in from && f[p] == f[q] ==> p == q
    requires forall r :: r in to <==> exists p :: p in from && f[p] == r
    ensures |from| == |to|
    decreases |from|
  {
    if from == {} {
      assert to == {};
    } else {
      var p :| p in from;
      var less, image := from - {p}, to - {f[p]};
      forall r ensures r in image <==> exists q :: q in less && f[q] == r {
        if q :| q in from && f[q] == r && r != f[p] {
          assert q in less;
        }
      }
      ImageSize(f, less, image);
    }
  }

  ghost function Correspondence(state: State): (f: map<string, string>)
    requires Bijection(state)
    ensures f.Keys == state.mappings.Keys
  {
    map p | p in state.mappings :: ContractOf(state, p)
  }

  /** A clean check forces the index: as many mappings as contracts, each domain counted with exactly its contracts,
      and the domain counts add up to the number of mappings. */
  lemma CleanIndex(state: State, index: Index)
    requires Clean(state)
    requires index.mappingCount == |Indexed(state.mappings)| && index.semanticContractCount == |state.semantics|
    requires Counted(state.mappings, Indexed(state.mappings), index.domainCounts)
    ensures index.mappingCount == index.semanticContractCount == |state.mappings|
    ensures forall d :: d in index.domainCounts <==> ContractsIn(state.semantics, d) != {}
    ensures forall d :: d in index.domainCounts ==> index.domainCounts[d] == |ContractsIn(state.semantics, d)|
    ensures Sum(index.domainCounts) == index.semanticContractCount
  {
    CleanSizes(state);
    CountsMatch(state, index.domainCounts);
    DomainsAddUp(state.mappings, Indexed(state.mappings), index.domainCounts);
  }

  lemma CountsMatch(state: State, counts: map<Domain, nat>)
    requires Clean(state) && Counted(state.mappings, Indexed(state.mappings), counts)
    ensures forall d :: d in counts <==> ContractsIn(state.semantics, d) != {}
    ensures forall d :: d in counts ==> counts[d] == |ContractsIn(state.semantics, d)|
  {
    forall d ensures && |OfDomain(state.mappings, Indexed(state.mappings), d)| == |ContractsIn(state.semantics, d)|
                     && (OfDomain(state.mappings, Indexed(state.mappings), d) == {} <==> ContractsIn(state.semantics, d) == {}) {
      DomainImage(state, d);
    }
  }

  lemma CleanSizes(state: State)
    requires Clean(state)
    ensures |Indexed(state.mappings)| == |state.mappings| == |state.semantics|
  {
    CleanIffBijection(state);
    assert Indexed(state.mappings) == state.mappings.Keys;
    var f := Correspondence(state);
    forall ref | ref in state.semantics ensures exists p :: p in state.mappings.Keys && f[p] == ref {
      var p :| p in state.mappings && ContractOf(state, p) == ref;
      assert p in state.mappings.Keys && f[p] == ref;
    }
    ImageSize(f, state.mappings.Keys, state.semantics.Keys);
  }

  lemma DomainImage(state: State, d: Domain)
    requires Clean(state)
    ensures |OfDomain(state.mappings, Indexed(state.mappings), d)| == |ContractsIn(state.semantics, d)|
    ensures OfDomain(state.mappings, Indexed(state.mappings), d) == {} <==> ContractsIn(state.semantics, d) == {}
  {
    CleanIffBijection(state);
    var here := OfDomain(state.mappings, Indexed(state.mappings), d);
    var f := Correspondence(state);
    forall ref | ref in ContractsIn(state.semantics, d) ensures exists p :: p in here && f[p] == ref {
      var p :| p in state.mappings && ContractOf(state, p) == ref;
      assert p in here && f[p] == ref;
    }
    ImageSize(f, here, ContractsIn(state.semantics, d));
  }
}
