/** From the service catalogue to the Compose model of one environment, and the dependency rules over it. */
module ComposeModel {
  import opened Wrappers
  import opened Yaml

  datatype Environment = Default | Dev | Test | Staging | Production

  function TargetEnvironment(e: Environment): Environment {
    if e == Default then Dev else e
  }

  function EnvironmentName(e: Environment): string {
    match e
    case Default => "default"
    case Dev => "dev"
    case Test => "test"
    case Staging => "staging"
    case Production => "production"
  }

  /** What is listed of a service that production needs but does not run. */
  datatype Boundary = Boundary(realisationMode: string, deploymentForm: string, environmentScopeMechanism: string,
                               projectBoundary: string, tenantBoundary: string, accessBoundary: string,
                               productionExposureBoundary: string, proofObligation: string)

  datatype Policy = Policy(generated: bool, required: Scalar, composeProfiles: seq<string>, boundary: Boundary)

  datatype Port = Port(name: string, containerPort: Value, publishedPort: string, hostIp: string, protocol: string,
                       appProtocol: string, environmentScopes: set<Environment>, allocationMode: string)

  datatype Dependency = Dependency(serviceName: string, condition: string)

  datatype Compose = Compose(serviceName: string, image: string, command: Value, environment: seq<(string, string)>,
                             volumes: Value, dependsOn: seq<Dependency>, healthcheck: Value, profiles: seq<string>)

  /** Volume and network names are empty when the catalogue gives none. */
  datatype Service = Service(serviceId: string, policies: map<Environment, Policy>, compose: Option<Compose>,
                             ports: seq<Port>, volumeNames: seq<string>, networkNames: seq<string>)
  {
    predicate Complete() {
      forall e: Environment :: e != Default ==> e in policies
    }
  }

  type Catalogue = s: seq<Service> | forall x :: x in s ==> x.Complete() witness []

  datatype Error = NoComposeService(serviceId: string)

  /* ---- Dictionaries in insertion order ---- */

  function Keys(d: seq<Entry>): set<string> {
    set e | e in d :: e.key
  }

  /** `d[k] = v`: an existing key keeps its place, a new one goes last. */
  function DictSet(d: seq<Entry>, k: string, v: Value): (r: seq<Entry>)
    ensures Keys(r) == Keys(d) + {k}
  {
    if d == [] then [Entry(k, v)]
    else
      assert d == [d[0]] + d[1..];
      if d[0].key == k then [Entry(k, v)] + d[1..]
      else
        var rest := DictSet(d[1..], k, v);
        KeysConcat([d[0]], rest);
        KeysConcat([d[0]], d[1..]);
        [d[0]] + rest
  }

  lemma KeysConcat(a: seq<Entry>, b: seq<Entry>)
    ensures Keys(a + b) == Keys(a) + Keys(b)
  {
  }

  /** A dictionary comprehension: later pairs win, first occurrences set the order. */
  function DictOf(pairs: seq<Entry>): (r: seq<Entry>)
    ensures Keys(r) == Keys(pairs)
  {
    if pairs == [] then []
    else
      var n := |pairs| - 1;
      assert pairs == pairs[..n] + [pairs[n]];
      DictSet(DictOf(pairs[..n]), pairs[n].key, pairs[n].value)
  }

  function SetDefault(d: seq<Entry>, k: string): seq<Entry> {
    if k in Keys(d) then d else d + [Entry(k, Map([]))]
  }

  /** No key occurs twice. */
  predicate IsDict(d: seq<Entry>) {
    forall i, j :: 0 <= i < j < |d| ==> d[i].key != d[j].key
  }

  /** `d[k]`, for a key that is there. */
  function Lookup(d: seq<Entry>, k: string): Option<Value> {
    if d == [] then None else if d[0].key == k then Some(d[0].value) else Lookup(d[1..], k)
  }

  lemma {:induction false} LookupAfterSet(d: seq<Entry>, k: string, v: Value, l: string)
    ensures Lookup(DictSet(d, k, v), l) == if l == k then Some(v) else Lookup(d, l)
  {
    if d != [] && d[0].key != k {
      LookupAfterSet(d[1..], k, v, l);
    }
  }

  lemma {:induction false} DictSetIsDict(d: seq<Entry>, k: string, v: Value)
    requires IsDict(d)
    ensures IsDict(DictSet(d, k, v))
  {
    if d != [] && d[0].key != k {
      DictSetIsDict(d[1..], k, v);
      var r := DictSet(d[1..], k, v);
      assert d[0].key !in Keys(d[1..]);
      assert forall j :: 0 <= j < |r| ==> r[j].key in Keys(r);
    }
  }

  /* ---- One service ---- */

  predicate Truthy(v: Value) {
    match v
    case Leaf(Null) => false
    case Leaf(Bool(b)) => b
    case Leaf(Number(text)) => exists i :: 0 <= i < |text| && ('1' <= text[i] <= '9' || text[i] == 'i' || text[i] == 'n')
    case Leaf(Str(s)) => s != ""
    case Map(entries) => entries != []
    case List(items) => items != []
  }

  function Text(s: string): Value {
    Leaf(Str(s))
  }

  function Texts(s: seq<string>): Value {
    List(seq(|s|, i requires 0 <= i < |s| => Text(s[i])))
  }

  function PairEntries(pairs: seq<(string, string)>): (r: seq<Entry>)
    ensures |r| == |pairs|
  {
    seq(|pairs|, i requires 0 <= i < |pairs| => Entry(pairs[i].0, Text(pairs[i].1)))
  }

  function EntriesToMapping(pairs: seq<(string, string)>): seq<Entry> {
    DictOf(PairEntries(pairs))
  }

  /** The declared dependencies that are generated for the same target. */
  function KeptDependencies(deps: seq<Dependency>, targets: set<string>): seq<Entry> {
    if deps == [] then []
    else
      var before, last := KeptDependencies(deps[..|deps| - 1], targets), deps[|deps| - 1];
      if last.serviceName in targets
      then before + [Entry(last.serviceName, Map([Entry("condition", Text(last.condition))]))]
      else before
  }

  function DependsToMapping(deps: seq<Dependency>, targets: set<string>): seq<Entry> {
    DictOf(KeptDependencies(deps, targets))
  }

  function PortForCompose(p: Port): Value {
    Map([Entry("name", Text(p.name)), Entry("target", p.containerPort), Entry("published", Text(p.publishedPort)),
         Entry("host_ip", Text(p.hostIp)), Entry("protocol", Text(p.protocol))]
        + if p.appProtocol == "" then [] else [Entry("app_protocol", Text(p.appProtocol))])
  }

  function PortsForEnvironment(ports: seq<Port>, env: Environment): seq<Value> {
    if ports == [] then []
    else
      var before, last := PortsForEnvironment(ports[..|ports| - 1], env), ports[|ports| - 1];
      if env in last.environmentScopes && last.allocationMode != "not-published"
      then before + [PortForCompose(last)] else before
  }

  function Given(key: string, v: Value): seq<Entry> {
    if Truthy(v) then [Entry(key, v)] else []
  }

  function ServiceEntries(s: Service, c: Compose, p: Policy, env: Environment, targets: set<string>): seq<Entry> {
    [Entry("image", Text(c.image))]
    + Given("command", c.command)
    + Given("environment", Map(EntriesToMapping(c.environment)))
    + Given("ports", List(PortsForEnvironment(s.ports, env)))
    + Given("volumes", c.volumes)
    + Given("depends_on", Map(DependsToMapping(c.dependsOn, targets)))
    + Given("healthcheck", c.healthcheck)
    + Given("profiles", Texts(if p.composeProfiles != [] then p.composeProfiles else c.profiles))
  }

  /** The service's entry for an environment; `None` when it is not generated there. */
  function ServiceForEnvironment(s: Service, env: Environment, targets: set<string>): Result<Option<Value>, Error>
    requires env in s.policies
  {
    if !s.policies[env].generated then Success(None)
    else match s.compose
      case None => Failure(NoComposeService(s.serviceId))
      case Some(c) => Success(Some(Map(ServiceEntries(s, c, s.policies[env], env, targets))))
  }

  /* ---- The whole model ---- */

  predicate IsGenerated(s: Service, env: Environment) {
    env in s.policies && s.policies[env].generated && s.compose.Some?
  }

  /** The names the target will contain, fixed before any service is built. */
  function TargetServices(catalogue: seq<Service>, env: Environment): set<string> {
    set s | s in catalogue && IsGenerated(s, env) :: s.compose.value.serviceName
  }

  datatype Parts = Parts(services: seq<Entry>, volumes: seq<Entry>, networks: seq<Entry>, requirements: seq<Value>)

  function SetDefaults(d: seq<Entry>, names: seq<string>): seq<Entry> {
    if names == [] then d
    else
      var before, last := SetDefaults(d, names[..|names| - 1]), names[|names| - 1];
      if last == "" then before else SetDefault(before, last)
  }

  function RequirementOf(serviceId: string, b: Boundary): Value {
    Map([Entry("serviceId", Text(serviceId)), Entry("realisationMode", Text(b.realisationMode)),
         Entry("deploymentForm", Text(b.deploymentForm)),
         Entry("environmentScopeMechanism", Text(b.environmentScopeMechanism)),
         Entry("projectBoundary", Text(b.projectBoundary)), Entry("tenantBoundary", Text(b.tenantBoundary)),
         Entry("accessBoundary", Text(b.accessBoundary)),
         Entry("productionExposureBoundary", Text(b.productionExposureBoundary)),
         Entry("proofObligation", Text(b.proofObligation))])
  }

  function AddService(parts: Parts, s: Service, env: Environment, targets: set<string>): Result<Parts, Error>
    requires s.Complete() && env != Default
  {
    var built :- ServiceForEnvironment(s, env, targets);
    match built
    case Some(v) =>
      Success(Parts(DictSet(parts.services, s.compose.value.serviceName, v), SetDefaults(parts.volumes, s.volumeNames),
                    SetDefaults(parts.networks, s.networkNames), parts.requirements))
    case None =>
      Success(if env == Production && s.policies[env].required != Bool(false)
              then parts.(requirements := parts.requirements + [RequirementOf(s.serviceId, s.policies[env].boundary)])
              else parts)
  }

  function Collect(catalogue: Catalogue, env: Environment, targets: set<string>): Result<Parts, Error>
    requires env != Default
  {
    if catalogue == [] then Success(Parts([], [], [], []))
    else
      var before :- Collect(catalogue[..|catalogue| - 1], env, targets);
      AddService(before, catalogue[|catalogue| - 1], env, targets)
  }

  const SOURCE := "spec/instances/compose-service/service-catalogue.json"

  /** The entries printed before the services block. */
  function Preamble(env: Environment): seq<Entry> {
    [Entry("name", Text("foundation-bootstrap-" + EnvironmentName(env))),
     Entry("x-usf-generated", Map([Entry("source", Text(SOURCE)), Entry("environment", Text(EnvironmentName(env)))]))]
  }

  /** The entries printed after it, where there is anything to say. */
  function Appendix(parts: Parts): seq<Entry> {
    Given("volumes", Map(parts.volumes))
    + Given("networks", Map(parts.networks))
    + Given("x-usf-requirements", List(parts.requirements))
  }

  function Assemble(parts: Parts, env: Environment): seq<Entry> {
    Preamble(env) + ([Entry("services", Map(parts.services))] + Appendix(parts))
  }

  function Model(catalogue: Catalogue, environment: Environment): Result<seq<Entry>, Error> {
    var env := TargetEnvironment(environment);
    var parts :- Collect(catalogue, env, TargetServices(catalogue, env));
    Success(Assemble(parts, env))
  }

  method ComposeModel(catalogue: Catalogue, environment: Environment) returns (r: Result<seq<Entry>, Error>)
    ensures r == Model(catalogue, environment)
  {
    var env := TargetEnvironment(environment);
    var targets := TargetServices(catalogue, env);
    var parts := Parts([], [], [], []);
    for i := 0 to |catalogue|
      invariant Collect(catalogue[..i], env, targets) == Success(parts)
    {
      assert catalogue[..i + 1][..i] == catalogue[..i];
      var step := AddService(parts, catalogue[i], env, targets);
      if step.Failure? {
        CollectFails(catalogue, i + 1, env, targets);
        return Failure(step.error);
      }
      parts := step.value;
    }
    assert catalogue[..|catalogue|] == catalogue;
    return Success(Assemble(parts, env));
  }

  lemma {:induction false} CollectFails(catalogue: Catalogue, i: nat, env: Environment, targets: set<string>)
    requires i <= |catalogue| && env != Default && Collect(catalogue[..i], env, targets).Failure?
    ensures Collect(catalogue, env, targets) == Collect(catalogue[..i], env, targets)
    decreases |catalogue|
  {
    if i == |catalogue| {
      assert catalogue[..i] == catalogue;
    } else {
      var shorter: Catalogue := catalogue[..|catalogue| - 1];
      assert shorter[..i] == catalogue[..i];
      CollectFails(shorter, i, env, targets);
    }
  }

  /* ---- The validator's views of the same catalogue ---- */

  /** The services of a generated model. */
  function GeneratedServices(catalogue: Catalogue, environment: Environment): Result<seq<Entry>, Error> {
    var env := TargetEnvironment(environment);
    var parts :- Collect(catalogue, env, TargetServices(catalogue, env));
    Success(parts.services)
  }

  method CatalogueServiceNames(catalogue: Catalogue, env: Environment) returns (names: set<string>)
    requires env != Default
    ensures names == TargetServices(catalogue, env)
  {
    names := {};
    for i := 0 to |catalogue|
      invariant names == TargetServices(catalogue[..i], env)
    {
      var s := catalogue[i];
      assert catalogue[..i + 1] == catalogue[..i] + [s];
      if s.policies[env].generated && s.compose.Some? {
        names := names + {s.compose.value.serviceName};
      }
    }
    assert catalogue[..|catalogue|] == catalogue;
  }

  function Declared(c: Compose): set<string> {
    set d | d in c.dependsOn :: d.serviceName
  }

  /** The declared dependencies by service name; when a name repeats, the last service counts. */
  function DeclaredDependencies(catalogue: seq<Service>, env: Environment): map<string, set<string>> {
    if catalogue == [] then map[]
    else
      var before, last := DeclaredDependencies(catalogue[..|catalogue| - 1], env), catalogue[|catalogue| - 1];
      if IsGenerated(last, env) then before[last.compose.value.serviceName := Declared(last.compose.value)] else before
  }

  method GeneratedDependencies(catalogue: Catalogue, env: Environment) returns (deps: map<string, set<string>>)
    requires env != Default
    ensures deps == DeclaredDependencies(catalogue, env)
  {
    deps := map[];
    for i := 0 to |catalogue|
      invariant deps == DeclaredDependencies(catalogue[..i], env)
    {
      var s := catalogue[i];
      assert catalogue[..i + 1][..i] == catalogue[..i];
      if s.policies[env].generated && s.compose.Some? {
        deps := deps[s.compose.value.serviceName := set d | d in s.compose.value.dependsOn :: d.serviceName];
      }
    }
    assert catalogue[..|catalogue|] == catalogue;
  }

  /** Rule 029: a declared dependency of a generated service that the same target does not contain. */
  function MissingDependencies(deps: map<string, set<string>>, names: set<string>): set<(string, string)> {
    set n, d | n in deps && d in deps[n] && d !in names :: (n, d)
  }

  /** The rule 029 loop over one target. */
  method ReportMissingDependencies(catalogue: Catalogue, env: Environment, names: set<string>)
    returns (findings: set<(string, string)>)
    requires env != Default
    ensures findings == MissingDependencies(DeclaredDependencies(catalogue, env), names)
  {
    var deps := GeneratedDependencies(catalogue, env);
    findings := {};
    var pending := deps.Keys;
    while pending != {}
      invariant pending <= deps.Keys
      invariant findings == set n, d | n in deps && n !in pending && d in deps[n] && d !in names :: (n, d)
      decreases pending
    {
      var name :| name in pending;
      var missing := deps[name] - names;
      findings := findings + set d | d in missing :: (name, d);
      pending := pending - {name};
    }
  }

  /* ---- The generated graph ---- */

  /** The services a service entry waits for. */
  function DependsOn(v: Value): set<string> {
    if v.Map? && Lookup(v.entries, "depends_on").Some? && Lookup(v.entries, "depends_on").value.Map?
    then Keys(Lookup(v.entries, "depends_on").value.entries)
    else {}
  }

  /** The edges of a generated services block. */
  function Edges(services: seq<Entry>): set<(string, string)> {
    set e, d | e in services && d in DependsOn(e.value) :: (e.key, d)
  }

  /** The edges the catalogue declares for the services of a block. */
  function DeclaredEdges(deps: map<string, set<string>>): set<(string, string)> {
    set n, d | n in deps && d in deps[n] :: (n, d)
  }

  lemma NamesSnoc(deps: seq<Dependency>, last: Dependency)
    ensures (set d | d in deps + [last] :: d.serviceName) == (set d | d in deps :: d.serviceName) + {last.serviceName}
  {
  }

  lemma {:induction false} KeptKeys(deps: seq<Dependency>, targets: set<string>)
    ensures Keys(KeptDependencies(deps, targets)) == (set d | d in deps :: d.serviceName) * targets
  {
    if deps == [] {
    } else {
      var n := |deps| - 1;
      KeptKeys(deps[..n], targets);
      NamesSnoc(deps[..n], deps[n]);
      assert deps == deps[..n] + [deps[n]];
      if deps[n].serviceName in targets {
        KeysConcat(KeptDependencies(deps[..n], targets), [Entry(deps[n].serviceName, Map([Entry("condition", Text(deps[n].condition))]))]);
      }
    }
  }

  lemma {:induction false} LookupAppend(a: seq<Entry>, b: seq<Entry>, k: string)
    ensures Lookup(a + b, k) == if Lookup(a, k).Some? then Lookup(a, k) else Lookup(b, k)
  {
    if a == [] {
      assert a + b == b;
    } else {
      assert (a + b)[1..] == a[1..] + b;
      LookupAppend(a[1..], b, k);
    }
  }

  lemma LookupGiven(key: string, v: Value, k: string)
    ensures Lookup(Given(key, v), k) == if key == k && Truthy(v) then Some(v) else None
  {
    if Truthy(v) {
      assert [Entry(key, v)][1..] == [];
    }
  }

  function IfTruthy(v: Value): Option<Value> {
    if Truthy(v) then Some(v) else None
  }

  /** What a service entry holds under a key. */
  function FieldOf(s: Service, c: Compose, p: Policy, env: Environment, targets: set<string>, k: string): Option<Value> {
    if k == "image" then Some(Text(c.image))
    else if k == "command" then IfTruthy(c.command)
    else if k == "environment" then IfTruthy(Map(EntriesToMapping(c.environment)))
    else if k == "ports" then IfTruthy(List(PortsForEnvironment(s.ports, env)))
    else if k == "volumes" then IfTruthy(c.volumes)
    else if k == "depends_on" then IfTruthy(Map(DependsToMapping(c.dependsOn, targets)))
    else if k == "healthcheck" then IfTruthy(c.healthcheck)
    else if k == "profiles" then IfTruthy(Texts(if p.composeProfiles != [] then p.composeProfiles else c.profiles))
    else None
  }

  lemma ServiceField(s: Service, c: Compose, p: Policy, env: Environment, targets: set<string>, k: string)
    ensures Lookup(ServiceEntries(s, c, p, env, targets), k) == FieldOf(s, c, p, env, targets, k)
  {
    var image := [Entry("image", Text(c.image))];
    var command := Given("command", c.command);
    var environment := Given("environment", Map(EntriesToMapping(c.environment)));
    var ports := Given("ports", List(PortsForEnvironment(s.ports, env)));
    var volumes := Given("volumes", c.volumes);
    var depends := Given("depends_on", Map(DependsToMapping(c.dependsOn, targets)));
    var healthcheck := Given("healthcheck", c.healthcheck);
    var profiles := Given("profiles", Texts(if p.composeProfiles != [] then p.composeProfiles else c.profiles));
    assert image[1..] == [];
    LookupGiven("command", c.command, k);
    LookupGiven("environment", Map(EntriesToMapping(c.environment)), k);
    LookupGiven("ports", List(PortsForEnvironment(s.ports, env)), k);
    LookupGiven("volumes", c.volumes, k);
    LookupGiven("depends_on", Map(DependsToMapping(c.dependsOn, targets)), k);
    LookupGiven("healthcheck", c.healthcheck, k);
    LookupGiven("profiles", Texts(if p.composeProfiles != [] then p.composeProfiles else c.profiles), k);
    LookupAppend(image, command, k);
    LookupAppend(image + command, environment, k);
    LookupAppend(image + command + environment, ports, k);
    LookupAppend(image + command + environment + ports, volumes, k);
    LookupAppend(image + command + environment + ports + volumes, depends, k);
    LookupAppend(image + command + environment + ports + volumes + depends, healthcheck, k);
    LookupAppend(image + command + environment + ports + volumes + depends + healthcheck, profiles, k);
  }

  /** A service entry waits for exactly its declared dependencies inside the target. */
  lemma ServiceDependsOn(s: Service, c: Compose, p: Policy, env: Environment, targets: set<string>)
    ensures DependsOn(Map(ServiceEntries(s, c, p, env, targets))) == Declared(c) * targets
  {
    var depends := Map(DependsToMapping(c.dependsOn, targets));
    ServiceField(s, c, p, env, targets, "depends_on");
    assert FieldOf(s, c, p, env, targets, "depends_on") == IfTruthy(depends);
    KeptKeys(c.dependsOn, targets);
    assert depends.entries == [] ==> Keys(depends.entries) == {};
  }

  /** A services block whose entry for each name has the edges of `deps` that stay inside the target. */
  ghost predicate Matches(services: seq<Entry>, deps: map<string, set<string>>, targets: set<string>) {
    && IsDict(services) && Keys(services) == deps.Keys
    && forall n :: n in deps ==> Lookup(services, n).Some? && DependsOn(Lookup(services, n).value) == deps[n] * targets
  }

  lemma MatchesAfterSet(services: seq<Entry>, deps: map<string, set<string>>, targets: set<string>,
                        name: string, v: Value, edges: set<string>)
    requires Matches(services, deps, targets) && DependsOn(v) == edges * targets
    ensures Matches(DictSet(services, name, v), deps[name := edges], targets)
  {
    DictSetIsDict(services, name, v);
    var after, more := DictSet(services, name, v), deps[name := edges];
    assert Keys(after) == Keys(services) + {name} == more.Keys;
    forall n | n in more ensures Lookup(after, n).Some? && DependsOn(Lookup(after, n).value) == more[n] * targets {
      LookupAfterSet(services, name, v, n);
    }
  }

  lemma {:induction false} DeclaredKeys(catalogue: seq<Service>, env: Environment)
    ensures DeclaredDependencies(catalogue, env).Keys == TargetServices(catalogue, env)
  {
    if catalogue == [] {
    } else {
      var shorter, s := catalogue[..|catalogue| - 1], catalogue[|catalogue| - 1];
      DeclaredKeys(shorter, env);
      assert catalogue == shorter + [s];
    }
  }

  /** After any number of services, each key has the edges of the last service of that name. */
  lemma {:induction false} CollectedEdges(catalogue: Catalogue, env: Environment, targets: set<string>)
    requires env != Default && Collect(catalogue, env, targets).Success?
    ensures Matches(Collect(catalogue, env, targets).value.services, DeclaredDependencies(catalogue, env), targets)
  {
    if catalogue == [] {
    } else {
      var shorter: Catalogue := catalogue[..|catalogue| - 1];
      var s := catalogue[|catalogue| - 1];
      CollectedEdges(shorter, env, targets);
      if IsGenerated(s, env) {
        var c := s.compose.value;
        ServiceDependsOn(s, c, s.policies[env], env, targets);
        MatchesAfterSet(Collect(shorter, env, targets).value.services, DeclaredDependencies(shorter, env), targets,
                        c.serviceName, Map(ServiceEntries(s, c, s.policies[env], env, targets)), Declared(c));
      }
    }
  }

  lemma {:induction false} LookupOfEntry(d: seq<Entry>, e: Entry)
    requires IsDict(d) && e in d
    ensures Lookup(d, e.key) == Some(e.value)
  {
    if d[0] != e {
      var i :| 0 <= i < |d| && d[i] == e;
      assert d[1..][i - 1] == e;
      LookupOfEntry(d[1..], e);
    }
  }

  lemma {:induction false} EntryOfLookup(d: seq<Entry>, k: string)
    requires Lookup(d, k).Some?
    ensures Entry(k, Lookup(d, k).value) in d
  {
    if d[0].key != k {
      EntryOfLookup(d[1..], k);
    }
  }

  /** A generated block has the authorised names, waits only for services it contains, and lacks exactly the declared
      edges that rule 029 reports, repeated service names included. */
  lemma GeneratedGraphIsClosed(catalogue: Catalogue, environment: Environment)
    requires GeneratedServices(catalogue, environment).Success?
    ensures var env := TargetEnvironment(environment);
            var services := GeneratedServices(catalogue, environment).value;
            var deps := DeclaredDependencies(catalogue, env);
            && IsDict(services) && Keys(services) == TargetServices(catalogue, env)
            && (forall e, d :: (e, d) in Edges(services) ==> d in Keys(services))
            && Edges(services) !! MissingDependencies(deps, Keys(services))
            && DeclaredEdges(deps) == Edges(services) + MissingDependencies(deps, Keys(services))
  {
    var env := TargetEnvironment(environment);
    var services := GeneratedServices(catalogue, environment).value;
    var deps := DeclaredDependencies(catalogue, env);
    CollectedEdges(catalogue, env, TargetServices(catalogue, env));
    DeclaredKeys(catalogue, env);
    forall n, d ensures (n, d) in Edges(services) <==> n in deps && d in deps[n] && d in Keys(services) {
      if (n, d) in Edges(services) {
        var e :| e in services && e.key == n && d in DependsOn(e.value);
        LookupOfEntry(services, e);
      }
      if n in deps && d in deps[n] && d in Keys(services) {
        EntryOfLookup(services, n);
        assert d in DependsOn(Entry(n, Lookup(services, n).value).value);
      }
    }
  }

  /* ---- Conditions, volumes and networks ---- */

  /** The condition of the last declared dependency on a service. */
  function LastCondition(deps: seq<Dependency>, name: string): Option<string> {
    if deps == [] then None
    else if deps[|deps| - 1].serviceName == name then Some(deps[|deps| - 1].condition)
    else LastCondition(deps[..|deps| - 1], name)
  }

  /** The value of the last pair with a key. */
  function LastValue(pairs: seq<Entry>, k: string): Option<Value> {
    if pairs == [] then None
    else if pairs[|pairs| - 1].key == k then Some(pairs[|pairs| - 1].value)
    else LastValue(pairs[..|pairs| - 1], k)
  }

  lemma {:induction false} LookupDictOf(pairs: seq<Entry>, k: string)
    ensures Lookup(DictOf(pairs), k) == LastValue(pairs, k)
  {
    if pairs == [] {
    } else {
      var shorter, last := pairs[..|pairs| - 1], pairs[|pairs| - 1];
      LookupDictOf(shorter, k);
      LookupAfterSet(DictOf(shorter), last.key, last.value, k);
    }
  }

  lemma {:induction false} LastKept(deps: seq<Dependency>, targets: set<string>, name: string)
    ensures LastValue(KeptDependencies(deps, targets), name)
            == if name in targets && LastCondition(deps, name).Some?
               then Some(Map([Entry("condition", Text(LastCondition(deps, name).value))])) else None
  {
    if deps == [] {
    } else {
      var n := |deps| - 1;
      LastKept(deps[..n], targets, name);
      if deps[n].serviceName in targets {
        var before := KeptDependencies(deps[..n], targets);
        var kept := KeptDependencies(deps, targets);
        assert kept[..|kept| - 1] == before;
      }
    }
  }

  /** Each dependency kept carries the condition declared last for it, and none outside the target is kept. */
  lemma DependencyConditions(deps: seq<Dependency>, targets: set<string>, name: string)
    ensures Lookup(DependsToMapping(deps, targets), name)
            == if name in targets && LastCondition(deps, name).Some?
               then Some(Map([Entry("condition", Text(LastCondition(deps, name).value))])) else None
  {
    LookupDictOf(KeptDependencies(deps, targets), name);
    LastKept(deps, targets, name);
  }

  function Named(names: seq<string>): set<string> {
    set n | n in names && n != ""
  }

  lemma {:induction false} SetDefaultsKeys(d: seq<Entry>, names: seq<string>)
    ensures Keys(SetDefaults(d, names)) == Keys(d) + Named(names)
  {
    if names == [] {
    } else {
      var shorter, last := names[..|names| - 1], names[|names| - 1];
      SetDefaultsKeys(d, shorter);
      assert names == shorter + [last];
      KeysConcat(SetDefaults(d, shorter), [Entry(last, Map([]))]);
    }
  }

  function VolumeNames(catalogue: seq<Service>, env: Environment): set<string> {
    set s, n | s in catalogue && IsGenerated(s, env) && n in s.volumeNames && n != "" :: n
  }

  function NetworkNames(catalogue: seq<Service>, env: Environment): set<string> {
    set s, n | s in catalogue && IsGenerated(s, env) && n in s.networkNames && n != "" :: n
  }

  lemma AddedNames(parts: Parts, s: Service, env: Environment, targets: set<string>)
    requires s.Complete() && env != Default && AddService(parts, s, env, targets).Success?
    ensures var after := AddService(parts, s, env, targets).value;
            && Keys(after.volumes) == Keys(parts.volumes) + (if IsGenerated(s, env) then Named(s.volumeNames) else {})
            && Keys(after.networks) == Keys(parts.networks) + (if IsGenerated(s, env) then Named(s.networkNames) else {})
  {
    SetDefaultsKeys(parts.volumes, s.volumeNames);
    SetDefaultsKeys(parts.networks, s.networkNames);
  }

  /** The volumes and networks declared at the end are exactly those the generated services name. */
  lemma {:induction false} CollectedNames(catalogue: Catalogue, env: Environment, targets: set<string>)
    requires env != Default && Collect(catalogue, env, targets).Success?
    ensures Keys(Collect(catalogue, env, targets).value.volumes) == VolumeNames(catalogue, env)
    ensures Keys(Collect(catalogue, env, targets).value.networks) == NetworkNames(catalogue, env)
  {
    if catalogue == [] {
    } else {
      var shorter: Catalogue := catalogue[..|catalogue| - 1];
      var s := catalogue[|catalogue| - 1];
      CollectedNames(shorter, env, targets);
      AddedNames(Collect(shorter, env, targets).value, s, env, targets);
      NamesStep(shorter, s, env);
      assert catalogue == shorter + [s];
    }
  }

  lemma NamesStep(catalogue: seq<Service>, s: Service, env: Environment)
    ensures VolumeNames(catalogue + [s], env)
            == VolumeNames(catalogue, env) + if IsGenerated(s, env) then Named(s.volumeNames) else {}
    ensures NetworkNames(catalogue + [s], env)
            == NetworkNames(catalogue, env) + if IsGenerated(s, env) then Named(s.networkNames) else {}
  {
    assert forall x :: x in catalogue + [s] <==> x in catalogue || x == s;
  }

  /** A service to be generated that has no Compose service. */
  predicate Unbuildable(s: Service, env: Environment) {
    env in s.policies && s.policies[env].generated && s.compose.None?
  }

  /** The first service that cannot be built. */
  function FirstUnbuildable(catalogue: seq<Service>, env: Environment): Option<nat> {
    if catalogue == [] then None
    else
      var n := |catalogue| - 1;
      var earlier := FirstUnbuildable(catalogue[..n], env);
      if earlier.None? && Unbuildable(catalogue[n], env) then Some(n) else earlier
  }

  lemma {:induction false} FirstUnbuildableIsFirst(catalogue: seq<Service>, env: Environment)
    ensures var first := FirstUnbuildable(catalogue, env);
            && (first.Some? ==> first.value < |catalogue| && Unbuildable(catalogue[first.value], env))
            && forall j :: 0 <= j < (if first.Some? then first.value else |catalogue|) ==> !Unbuildable(catalogue[j], env)
  {
    if catalogue == [] {
    } else {
      var n := |catalogue| - 1;
      FirstUnbuildableIsFirst(catalogue[..n], env);
      assert forall j :: 0 <= j < n ==> catalogue[..n][j] == catalogue[j];
    }
  }

  /** The model fails exactly when some generated service has no Compose service, and names the first of them. */
  lemma {:induction false} FailsAtFirstUnbuildable(catalogue: Catalogue, env: Environment, targets: set<string>)
    requires env != Default
    ensures Collect(catalogue, env, targets).Failure? <==> FirstUnbuildable(catalogue, env).Some?
    ensures FirstUnbuildable(catalogue, env).Some? ==>
              && FirstUnbuildable(catalogue, env).value < |catalogue|
              && Collect(catalogue, env, targets)
                 == Failure(NoComposeService(catalogue[FirstUnbuildable(catalogue, env).value].serviceId))
  {
    if catalogue == [] {
    } else {
      var n := |catalogue| - 1;
      var shorter: Catalogue := catalogue[..n];
      FailsAtFirstUnbuildable(shorter, env, targets);
      if Collect(shorter, env, targets).Failure? {
        assert catalogue[FirstUnbuildable(shorter, env).value] == shorter[FirstUnbuildable(shorter, env).value];
      }
    }
  }
}
