/** What a generated Compose model holds, read back key by key. */
module ComposeContents {
  import opened Wrappers
  import opened Yaml
  import opened ComposeModel
  import T = Text

  function Word(s: string): Value {
    Leaf(Str(s))
  }

  /* ---- Truth values ---- */

  /** Only null, false, zero, the empty text and empty containers count as absent. */
  lemma TruthyIff(v: Value)
    ensures !(v.Leaf? && v.scalar.Number?) ==>
              (!Truthy(v) <==> v in {Leaf(Null), Leaf(Bool(false)), Leaf(Str("")), Map([]), List([])})
  {
  }

  lemma {:induction false} DecimalTruthy(n: nat)
    ensures IsNumberText(T.Decimal(n)) && (Truthy(Leaf(Number(T.Decimal(n)))) <==> n != 0)
  {
    var d := T.Decimal(n);
    var last := |d| - 1;
    assert d[last] in d;
    if n < 10 {
      assert Truthy(Leaf(Number(d))) <==> '1' <= d[0] <= '9';
    } else {
      DecimalTruthy(n / 10);
      var h := T.Decimal(n / 10);
      var i :| 0 <= i < |h| && ('1' <= h[i] <= '9' || h[i] == 'i' || h[i] == 'n');
      assert d[i] == h[i];
    }
  }

  predicate IsNumberText(s: string) {
    s != "" && forall c :: c in s ==> IsNumberChar(c)
  }

  /* ---- Lists filtered in order ---- */

  /** The positions of the elements for which something holds, in order. */
  function PositionsOf<T>(s: seq<T>, holds: T -> bool): (at: seq<nat>)
    ensures forall j :: 0 <= j < |at| ==> at[j] < |s|
  {
    if s == [] then []
    else
      var n := |s| - 1;
      if holds(s[n]) then PositionsOf(s[..n], holds) + [n] else PositionsOf(s[..n], holds)
  }

  /** They ascend, and no other position qualifies. */
  lemma {:induction false} PositionsFound<T>(s: seq<T>, holds: T -> bool)
    ensures forall i, j :: 0 <= i < j < |PositionsOf(s, holds)| ==> PositionsOf(s, holds)[i] < PositionsOf(s, holds)[j]
    ensures forall i: nat :: i in PositionsOf(s, holds) <==> i < |s| && holds(s[i])
  {
    if s == [] {
    } else {
      var n := |s| - 1;
      PositionsFound(s[..n], holds);
      forall i: nat ensures i in PositionsOf(s, holds) <==> i < |s| && holds(s[i]) {
        assert i < n ==> s[..n][i] == s[i];
      }
    }
  }

  /** One item, in order, for each element that qualifies. */
  predicate Each<T>(items: seq<Value>, s: seq<T>, holds: T -> bool, describes: (Value, T) -> bool) {
    var at := PositionsOf(s, holds);
    |items| == |at| && forall j :: 0 <= j < |at| ==> describes(items[j], s[at[j]])
  }

  lemma EachSnoc<T>(items: seq<Value>, v: Value, s: seq<T>, x: T, holds: T -> bool, describes: (Value, T) -> bool)
    requires Each(items, s, holds, describes) && (holds(x) ==> describes(v, x))
    ensures Each(if holds(x) then items + [v] else items, s + [x], holds, describes)
  {
    assert (s + [x])[..|s|] == s;
    forall j | 0 <= j < |PositionsOf(s, holds)| ensures (s + [x])[PositionsOf(s, holds)[j]] == s[PositionsOf(s, holds)[j]] {
    }
  }

  /* ---- The order of keys ---- */

  function KeyList(d: seq<Entry>): (r: seq<string>)
    ensures |r| == |d|
  {
    seq(|d|, i requires 0 <= i < |d| => d[i].key)
  }

  /** Some of the keys, in this order. */
  predicate Follows(keys: seq<string>, order: seq<string>) {
    if keys == [] then true
    else if order == [] then false
    else Follows(if keys[0] == order[0] then keys[1..] else keys, order[1..])
  }

  lemma {:induction false} FollowsItself(keys: seq<string>)
    ensures Follows(keys, keys)
  {
    if keys == [] {
    } else {
      FollowsItself(keys[1..]);
    }
  }

  lemma {:induction false} FollowsSnoc(keys: seq<string>, order: seq<string>, key: string)
    requires Follows(keys, order)
    ensures Follows(keys, order + [key]) && Follows(keys + [key], order + [key])
  {
    if order == [] {
      assert keys + [key] == [key] && (order + [key])[1..] == [];
    } else {
      var rest := if keys != [] && keys[0] == order[0] then keys[1..] else keys;
      assert (order + [key])[1..] == order[1..] + [key];
      FollowsSnoc(rest, order[1..], key);
      if keys == [] {
        assert keys + [key] == [key];
        assert (keys + [key])[1..] == [];
      } else {
        assert keys[0] == order[0] ==> (keys + [key])[1..] == rest + [key];
      }
    }
  }

  lemma GivenFollows(d: seq<Entry>, order: seq<string>, n: nat, key: string, v: Value)
    requires n < |order| && order[n] == key && Follows(KeyList(d), order[..n])
    ensures Follows(KeyList(d + Given(key, v)), order[..n + 1])
  {
    FollowsSnoc(KeyList(d), order[..n], key);
    assert order[..n + 1] == order[..n] + [key];
    assert KeyList(d + [Entry(key, v)]) == KeyList(d) + [key] && d + [] == d;
  }

  /** The names, each where it occurs first, behind those known before. */
  function Listed(before: seq<string>, names: seq<string>): seq<string> {
    if names == [] then before
    else
      var n := |names| - 1;
      var list := Listed(before, names[..n]);
      if names[n] in list then list else list + [names[n]]
  }

  function IndexOf(names: seq<string>, x: string): nat
    requires x in names
  {
    if names[0] == x then 0 else 1 + IndexOf(names[1..], x)
  }

  lemma {:induction false} IndexOfFirst(names: seq<string>, x: string)
    requires x in names
    ensures IndexOf(names, x) < |names| && names[IndexOf(names, x)] == x && x !in names[..IndexOf(names, x)]
  {
    if names[0] == x {
    } else {
      IndexOfFirst(names[1..], x);
      var i := IndexOf(names[1..], x);
      assert names[..1 + i] == [names[0]] + names[1..][..i];
    }
  }

  lemma {:induction false} IndexOfAppend(names: seq<string>, more: seq<string>, x: string)
    requires x in names
    ensures IndexOf(names + more, x) == IndexOf(names, x)
  {
    if names[0] == x {
    } else {
      assert (names + more)[1..] == names[1..] + more;
      IndexOfAppend(names[1..], more, x);
    }
  }

  /** From nothing, exactly the names are listed, by ascending first occurrence. */
  lemma {:induction false} ListedByFirst(names: seq<string>)
    ensures forall x :: x in Listed([], names) <==> x in names
    ensures forall i, j :: 0 <= i < j < |Listed([], names)| ==>
              IndexOf(names, Listed([], names)[i]) < IndexOf(names, Listed([], names)[j])
  {
    if names == [] {
    } else {
      var n, list := |names| - 1, Listed([], names[..|names| - 1]);
      ListedByFirst(names[..n]);
      assert names == names[..n] + [names[n]];
      forall x | x in names[..n] ensures IndexOf(names, x) == IndexOf(names[..n], x) < n {
        IndexOfAppend(names[..n], [names[n]], x);
        IndexOfFirst(names[..n], x);
      }
      if names[n] !in list {
        IndexOfFirst(names, names[n]);
        assert IndexOf(names, names[n]) == n;
      }
    }
  }

  lemma {:induction false} ListedTwice(before: seq<string>, names: seq<string>, more: seq<string>)
    ensures Listed(Listed(before, names), more) == Listed(before, names + more)
  {
    if more == [] {
      assert names + more == names;
    } else {
      var n := |more| - 1;
      ListedTwice(before, names, more[..n]);
      assert (names + more)[..|names| + n] == names + more[..n];
    }
  }

  lemma KeyListCons(e: Entry, d: seq<Entry>)
    ensures KeyList([e] + d) == [e.key] + KeyList(d)
  {
  }

  lemma {:induction false} DictSetKeys(d: seq<Entry>, k: string, v: Value)
    ensures KeyList(DictSet(d, k, v)) == if k in KeyList(d) then KeyList(d) else KeyList(d) + [k]
  {
    if d == [] {
      KeyListCons(Entry(k, v), []);
    } else {
      var first, rest := d[0], KeyList(d[1..]);
      assert d == [first] + d[1..];
      KeyListCons(first, d[1..]);
      if first.key == k {
        KeyListCons(Entry(k, v), d[1..]);
      } else {
        DictSetKeys(d[1..], k, v);
        KeyListCons(first, DictSet(d[1..], k, v));
        assert [first.key] + (rest + [k]) == ([first.key] + rest) + [k];
      }
    }
  }

  lemma {:induction false} DictOfKeys(pairs: seq<Entry>)
    ensures KeyList(DictOf(pairs)) == Listed([], KeyList(pairs))
  {
    if pairs == [] {
    } else {
      var n := |pairs| - 1;
      DictOfKeys(pairs[..n]);
      var d, keys, k := DictOf(pairs[..n]), KeyList(pairs), pairs[n].key;
      DictSetKeys(d, k, pairs[n].value);
      assert DictOf(pairs) == DictSet(d, k, pairs[n].value);
      assert keys[..n] == KeyList(pairs[..n]) && keys[n] == k;
      assert Listed([], keys) == if k in Listed([], keys[..n]) then Listed([], keys[..n]) else Listed([], keys[..n]) + [k];
    }
  }

  /* ---- Ports ---- */

  predicate Published(p: Port, env: Environment) {
    env in p.environmentScopes && p.allocationMode != "not-published"
  }

  /** The entry of a port has the port's own fields, the application protocol if there is one, and nothing else. */
  predicate DescribesPort(v: Value, p: Port) {
    && v.Map?
    && Lookup(v.entries, "name") == Some(Word(p.name))
    && Lookup(v.entries, "target") == Some(p.containerPort)
    && Lookup(v.entries, "published") == Some(Word(p.publishedPort))
    && Lookup(v.entries, "host_ip") == Some(Word(p.hostIp))
    && Lookup(v.entries, "protocol") == Some(Word(p.protocol))
    && Lookup(v.entries, "app_protocol") == (if p.appProtocol == "" then None else Some(Word(p.appProtocol)))
    && KeyList(v.entries)
       == ["name", "target", "published", "host_ip", "protocol"] + if p.appProtocol == "" then [] else ["app_protocol"]
  }

  lemma {:induction false} LookupAt(d: seq<Entry>, i: nat)
    requires i < |d| && forall j :: 0 <= j < i ==> d[j].key != d[i].key
    ensures Lookup(d, d[i].key) == Some(d[i].value)
  {
    if i == 0 {
    } else {
      assert d[0].key != d[i].key && d[1..][i - 1] == d[i];
      forall j | 0 <= j < i - 1 ensures d[1..][j].key != d[1..][i - 1].key {
        assert d[1..][j] == d[j + 1];
      }
      LookupAt(d[1..], i - 1);
    }
  }

  lemma {:induction false} LookupNone(d: seq<Entry>, k: string)
    ensures Lookup(d, k).None? <==> k !in Keys(d)
  {
    if d == [] {
    } else {
      assert d == [d[0]] + d[1..];
      KeysConcat([d[0]], d[1..]);
      LookupNone(d[1..], k);
    }
  }

  lemma PortDescribed(p: Port)
    ensures DescribesPort(PortForCompose(p), p)
  {
    var d := PortForCompose(p).entries;
    assert d[0].key == "name" && d[1].key == "target" && d[2].key == "published" && d[3].key == "host_ip" && d[4].key == "protocol";
    LookupAt(d, 0);
    LookupAt(d, 1);
    LookupAt(d, 2);
    LookupAt(d, 3);
    LookupAt(d, 4);
    if p.appProtocol == "" {
      LookupNone(d, "app_protocol");
    } else {
      assert d[5].key == "app_protocol";
      LookupAt(d, 5);
    }
  }

  function PublishedIn(env: Environment): Port -> bool {
    (p: Port) => Published(p, env)
  }

  function PortItem(): (Value, Port) -> bool {
    (v: Value, p: Port) => DescribesPort(v, p)
  }

  /** One entry, in order, for each port published in the environment. */
  predicate DescribesPorts(items: seq<Value>, ports: seq<Port>, env: Environment) {
    Each(items, ports, PublishedIn(env), PortItem())
  }

  lemma {:induction false} PortsDescribed(ports: seq<Port>, env: Environment)
    ensures DescribesPorts(PortsForEnvironment(ports, env), ports, env)
  {
    if ports == [] {
    } else {
      var shorter, p := ports[..|ports| - 1], ports[|ports| - 1];
      PortsDescribed(shorter, env);
      PortDescribed(p);
      var items, more := PortsForEnvironment(shorter, env), PortsForEnvironment(ports, env);
      assert more == if PublishedIn(env)(p) then items + [PortForCompose(p)] else items;
      EachSnoc(items, PortForCompose(p), shorter, p, PublishedIn(env), PortItem());
      assert ports == shorter + [p];
    }
  }

  /* ---- One service ---- */

  /** The value declared last for a name. */
  function LastDeclared(pairs: seq<(string, string)>, name: string): Option<string> {
    if pairs == [] then None
    else if pairs[|pairs| - 1].0 == name then Some(pairs[|pairs| - 1].1)
    else LastDeclared(pairs[..|pairs| - 1], name)
  }

  function VariableNames(pairs: seq<(string, string)>): seq<string> {
    seq(|pairs|, i requires 0 <= i < |pairs| => pairs[i].0)
  }

  /** A dictionary with the value declared last for each name, in order of first declaration, if any is declared. */
  ghost predicate HoldsVariables(o: Option<Value>, pairs: seq<(string, string)>) {
    if pairs == [] then o == None
    else && o.Some? && o.value.Map? && IsDict(o.value.entries)
         && KeyList(o.value.entries) == Listed([], VariableNames(pairs))
         && forall name :: Lookup(o.value.entries, name)
                           == if LastDeclared(pairs, name).Some? then Some(Word(LastDeclared(pairs, name).value)) else None
  }

  ghost predicate HoldsPorts(o: Option<Value>, ports: seq<Port>, env: Environment) {
    if forall p :: p in ports ==> !Published(p, env) then o == None
    else o.Some? && o.value.List? && DescribesPorts(o.value.items, ports, env)
  }

  /** The names of the dependencies inside the target, in order. */
  function KeptNames(deps: seq<Dependency>, targets: set<string>): seq<string> {
    if deps == [] then []
    else
      var last := deps[|deps| - 1].serviceName;
      KeptNames(deps[..|deps| - 1], targets) + if last in targets then [last] else []
  }

  lemma {:induction false} KeptKeys(deps: seq<Dependency>, targets: set<string>)
    ensures KeyList(KeptDependencies(deps, targets)) == KeptNames(deps, targets)
  {
    if deps == [] {
    } else {
      KeptKeys(deps[..|deps| - 1], targets);
    }
  }

  /** A dictionary with the condition declared last for each dependency inside the target, in order of first declaration,
      if there is one. */
  ghost predicate HoldsDependencies(o: Option<Value>, deps: seq<Dependency>, targets: set<string>) {
    if forall d :: d in deps ==> d.serviceName !in targets then o == None
    else && o.Some? && o.value.Map? && IsDict(o.value.entries)
         && KeyList(o.value.entries) == Listed([], KeptNames(deps, targets))
         && forall name :: Lookup(o.value.entries, name)
                           == if name in targets && LastCondition(deps, name).Some?
                              then Some(Map([Entry("condition", Word(LastCondition(deps, name).value))])) else None
  }

  predicate HoldsProfiles(o: Option<Value>, profiles: seq<string>) {
    if profiles == [] then o == None
    else o.Some? && o.value.List? && |o.value.items| == |profiles|
         && forall i :: 0 <= i < |profiles| ==> o.value.items[i] == Word(profiles[i])
  }

  /** A service entry says what the catalogue says of the service, in this order, and nothing else. */
  ghost predicate DescribesService(d: seq<Entry>, s: Service, c: Compose, p: Policy, env: Environment, targets: set<string>) {
    && Lookup(d, "image") == Some(Word(c.image))
    && Lookup(d, "command") == (if Truthy(c.command) then Some(c.command) else None)
    && HoldsVariables(Lookup(d, "environment"), c.environment)
    && HoldsPorts(Lookup(d, "ports"), s.ports, env)
    && Lookup(d, "volumes") == (if Truthy(c.volumes) then Some(c.volumes) else None)
    && HoldsDependencies(Lookup(d, "depends_on"), c.dependsOn, targets)
    && Lookup(d, "healthcheck") == (if Truthy(c.healthcheck) then Some(c.healthcheck) else None)
    && HoldsProfiles(Lookup(d, "profiles"), if p.composeProfiles != [] then p.composeProfiles else c.profiles)
    && Follows(KeyList(d), ["image", "command", "environment", "ports", "volumes", "depends_on", "healthcheck", "profiles"])
  }

  lemma {:induction false} LastOfPairs(pairs: seq<(string, string)>, name: string)
    ensures LastValue(PairEntries(pairs), name)
            == if LastDeclared(pairs, name).Some? then Some(Word(LastDeclared(pairs, name).value)) else None
  {
    if pairs == [] {
    } else {
      LastOfPairs(pairs[..|pairs| - 1], name);
      assert PairEntries(pairs)[..|pairs| - 1] == PairEntries(pairs[..|pairs| - 1]);
    }
  }

  lemma {:induction false} DictOfIsDict(pairs: seq<Entry>)
    ensures IsDict(DictOf(pairs)) && (pairs != [] ==> DictOf(pairs) != [])
  {
    if pairs == [] {
    } else {
      var n := |pairs| - 1;
      DictOfIsDict(pairs[..n]);
      DictSetIsDict(DictOf(pairs[..n]), pairs[n].key, pairs[n].value);
      assert pairs[n].key in Keys(DictOf(pairs));
    }
  }

  lemma VariablesHeld(pairs: seq<(string, string)>)
    ensures HoldsVariables(IfTruthy(Map(EntriesToMapping(pairs))), pairs)
  {
    DictOfIsDict(PairEntries(pairs));
    DictOfKeys(PairEntries(pairs));
    assert KeyList(PairEntries(pairs)) == VariableNames(pairs);
    forall name ensures Lookup(DictOf(PairEntries(pairs)), name)
                        == if LastDeclared(pairs, name).Some? then Some(Word(LastDeclared(pairs, name).value)) else None
    {
      LookupDictOf(PairEntries(pairs), name);
      LastOfPairs(pairs, name);
    }
  }

  lemma {:induction false} NonePublished(ports: seq<Port>, env: Environment)
    ensures PortsForEnvironment(ports, env) == [] <==> forall p :: p in ports ==> !Published(p, env)
  {
    if ports == [] {
    } else {
      var n := |ports| - 1;
      NonePublished(ports[..n], env);
      assert ports == ports[..n] + [ports[n]];
      assert ports[n] in ports && forall p :: p in ports[..n] ==> p in ports;
    }
  }

  lemma PortsHeld(ports: seq<Port>, env: Environment)
    ensures HoldsPorts(IfTruthy(List(PortsForEnvironment(ports, env))), ports, env)
  {
    NonePublished(ports, env);
    PortsDescribed(ports, env);
  }

  lemma {:induction false} NoneKept(deps: seq<Dependency>, targets: set<string>)
    ensures KeptDependencies(deps, targets) == [] <==> forall d :: d in deps ==> d.serviceName !in targets
  {
    if deps == [] {
    } else {
      var n := |deps| - 1;
      NoneKept(deps[..n], targets);
      assert deps == deps[..n] + [deps[n]];
      assert deps[n] in deps && forall d :: d in deps[..n] ==> d in deps;
    }
  }

  lemma DependenciesHeld(deps: seq<Dependency>, targets: set<string>)
    ensures HoldsDependencies(IfTruthy(Map(DependsToMapping(deps, targets))), deps, targets)
  {
    NoneKept(deps, targets);
    DictOfIsDict(KeptDependencies(deps, targets));
    DictOfKeys(KeptDependencies(deps, targets));
    KeptKeys(deps, targets);
    forall name ensures Lookup(DependsToMapping(deps, targets), name)
                        == if name in targets && LastCondition(deps, name).Some?
                           then Some(Map([Entry("condition", Word(LastCondition(deps, name).value))])) else None
    {
      DependencyConditions(deps, targets, name);
    }
  }

  lemma ProfilesHeld(profiles: seq<string>)
    ensures HoldsProfiles(IfTruthy(Texts(profiles)), profiles)
  {
  }

  lemma ServiceDescribed(s: Service, c: Compose, p: Policy, env: Environment, targets: set<string>)
    ensures DescribesService(ServiceEntries(s, c, p, env, targets), s, c, p, env, targets)
  {
    var d := ServiceEntries(s, c, p, env, targets);
    ServiceField(s, c, p, env, targets, "image");
    ServiceField(s, c, p, env, targets, "command");
    ServiceField(s, c, p, env, targets, "environment");
    ServiceField(s, c, p, env, targets, "ports");
    ServiceField(s, c, p, env, targets, "volumes");
    ServiceField(s, c, p, env, targets, "depends_on");
    ServiceField(s, c, p, env, targets, "healthcheck");
    ServiceField(s, c, p, env, targets, "profiles");
    VariablesHeld(c.environment);
    PortsHeld(s.ports, env);
    DependenciesHeld(c.dependsOn, targets);
    ProfilesHeld(if p.composeProfiles != [] then p.composeProfiles else c.profiles);
    ServiceKeys(s, c, p, env, targets);
  }

  lemma ServiceKeys(s: Service, c: Compose, p: Policy, env: Environment, targets: set<string>)
    ensures Follows(KeyList(ServiceEntries(s, c, p, env, targets)),
                    ["image", "command", "environment", "ports", "volumes", "depends_on", "healthcheck", "profiles"])
  {
    var order := ["image", "command", "environment", "ports", "volumes", "depends_on", "healthcheck", "profiles"];
    var d := [Entry("image", Word(c.image))];
    assert KeyList(d) == order[..1];
    FollowsItself(order[..1]);
    GivenFollows(d, order, 1, "command", c.command);
    d := d + Given("command", c.command);
    GivenFollows(d, order, 2, "environment", Map(EntriesToMapping(c.environment)));
    d := d + Given("environment", Map(EntriesToMapping(c.environment)));
    GivenFollows(d, order, 3, "ports", List(PortsForEnvironment(s.ports, env)));
    d := d + Given("ports", List(PortsForEnvironment(s.ports, env)));
    GivenFollows(d, order, 4, "volumes", c.volumes);
    d := d + Given("volumes", c.volumes);
    GivenFollows(d, order, 5, "depends_on", Map(DependsToMapping(c.dependsOn, targets)));
    d := d + Given("depends_on", Map(DependsToMapping(c.dependsOn, targets)));
    GivenFollows(d, order, 6, "healthcheck", c.healthcheck);
    d := d + Given("healthcheck", c.healthcheck);
    GivenFollows(d, order, 7, "profiles", Texts(if p.composeProfiles != [] then p.composeProfiles else c.profiles));
    assert order[..8] == order;
  }

  /* ---- The services ---- */

  /** The last service generated under a name. */
  function LastGenerated(catalogue: seq<Service>, env: Environment, name: string): (r: Option<nat>)
    ensures r.Some? ==> r.value < |catalogue| && IsGenerated(catalogue[r.value], env)
                        && catalogue[r.value].compose.value.serviceName == name
  {
    if catalogue == [] then None
    else
      var n := |catalogue| - 1;
      if IsGenerated(catalogue[n], env) && catalogue[n].compose.value.serviceName == name then Some(n)
      else LastGenerated(catalogue[..n], env, name)
  }

  /** No later one bears the name. */
  lemma {:induction false} LastGeneratedIsLast(catalogue: seq<Service>, env: Environment, name: string)
    ensures forall i :: (if LastGenerated(catalogue, env, name).Some? then LastGenerated(catalogue, env, name).value + 1 else 0) <= i < |catalogue|
              ==> !(IsGenerated(catalogue[i], env) && catalogue[i].compose.value.serviceName == name)
  {
    if catalogue == [] {
    } else {
      var n := |catalogue| - 1;
      LastGeneratedIsLast(catalogue[..n], env, name);
      assert forall i :: 0 <= i < n ==> catalogue[..n][i] == catalogue[i];
    }
  }

  /** Under each name stands what the last service generated under it declares. */
  ghost predicate HoldsService(services: seq<Entry>, catalogue: seq<Service>, env: Environment, targets: set<string>, name: string) {
    match LastGenerated(catalogue, env, name)
    case None => Lookup(services, name) == None
    case Some(i) =>
      && Lookup(services, name).Some? && Lookup(services, name).value.Map?
      && DescribesService(Lookup(services, name).value.entries, catalogue[i], catalogue[i].compose.value,
                          catalogue[i].policies[env], env, targets)
  }

  function EntryOf(s: Service, env: Environment, targets: set<string>): Value
    requires IsGenerated(s, env)
  {
    Map(ServiceEntries(s, s.compose.value, s.policies[env], env, targets))
  }

  lemma ServicesStep(parts: Parts, s: Service, env: Environment, targets: set<string>, name: string)
    requires s.Complete() && env != Default && AddService(parts, s, env, targets).Success?
    ensures Lookup(AddService(parts, s, env, targets).value.services, name)
            == if IsGenerated(s, env) && s.compose.value.serviceName == name then Some(EntryOf(s, env, targets))
               else Lookup(parts.services, name)
  {
    if IsGenerated(s, env) {
      LookupAfterSet(parts.services, s.compose.value.serviceName, EntryOf(s, env, targets), name);
    }
  }

  lemma {:induction false} ServicesLookup(catalogue: Catalogue, env: Environment, targets: set<string>, name: string)
    requires env != Default && Collect(catalogue, env, targets).Success?
    ensures Lookup(Collect(catalogue, env, targets).value.services, name)
            == if LastGenerated(catalogue, env, name).Some?
               then Some(EntryOf(catalogue[LastGenerated(catalogue, env, name).value], env, targets)) else None
  {
    if catalogue == [] {
    } else {
      var shorter: Catalogue := catalogue[..|catalogue| - 1];
      var s := catalogue[|catalogue| - 1];
      ServicesLookup(shorter, env, targets, name);
      ServicesStep(Collect(shorter, env, targets).value, s, env, targets, name);
    }
  }

  lemma ServicesHeld(catalogue: Catalogue, env: Environment, targets: set<string>, name: string)
    requires env != Default && Collect(catalogue, env, targets).Success?
    ensures HoldsService(Collect(catalogue, env, targets).value.services, catalogue, env, targets, name)
  {
    ServicesLookup(catalogue, env, targets, name);
    if LastGenerated(catalogue, env, name).Some? {
      var s := catalogue[LastGenerated(catalogue, env, name).value];
      ServiceDescribed(s, s.compose.value, s.policies[env], env, targets);
    }
  }

  /* ---- Requirements of production ---- */

  /** Production needs the service but does not run it. */
  predicate Owed(s: Service, env: Environment) {
    env == Production && env in s.policies && !s.policies[env].generated && s.policies[env].required != Bool(false)
  }

  function OwedIn(env: Environment): Service -> bool {
    (s: Service) => Owed(s, env)
  }

  predicate DescribesRequirement(v: Value, serviceId: string, b: Boundary) {
    && v.Map?
    && KeyList(v.entries) == ["serviceId", "realisationMode", "deploymentForm", "environmentScopeMechanism", "projectBoundary",
                              "tenantBoundary", "accessBoundary", "productionExposureBoundary", "proofObligation"]
    && Lookup(v.entries, "serviceId") == Some(Word(serviceId))
    && Lookup(v.entries, "realisationMode") == Some(Word(b.realisationMode))
    && Lookup(v.entries, "deploymentForm") == Some(Word(b.deploymentForm))
    && Lookup(v.entries, "environmentScopeMechanism") == Some(Word(b.environmentScopeMechanism))
    && Lookup(v.entries, "projectBoundary") == Some(Word(b.projectBoundary))
    && Lookup(v.entries, "tenantBoundary") == Some(Word(b.tenantBoundary))
    && Lookup(v.entries, "accessBoundary") == Some(Word(b.accessBoundary))
    && Lookup(v.entries, "productionExposureBoundary") == Some(Word(b.productionExposureBoundary))
    && Lookup(v.entries, "proofObligation") == Some(Word(b.proofObligation))
  }

  lemma RequirementKeys(serviceId: string, b: Boundary)
    ensures IsDict(RequirementOf(serviceId, b).entries)
  {
    var d := RequirementOf(serviceId, b).entries;
    assert |d[0].key| == 9 && |d[3].key| == 25 && |d[7].key| == 26;
    assert |d[1].key| == |d[4].key| == |d[8].key| == 15 && d[1].key[3] == 'l' && d[4].key[3] == 'j' && d[8].key[3] == 'o';
    assert |d[2].key| == |d[5].key| == |d[6].key| == 14 && d[2].key[3] == 'l' && d[5].key[3] == 'a' && d[6].key[3] == 'e';
  }

  lemma RequirementOrder(serviceId: string, b: Boundary)
    ensures KeyList(RequirementOf(serviceId, b).entries)
            == ["serviceId", "realisationMode", "deploymentForm", "environmentScopeMechanism", "projectBoundary",
                "tenantBoundary", "accessBoundary", "productionExposureBoundary", "proofObligation"]
  {
  }

  lemma RequirementDescribed(serviceId: string, b: Boundary)
    ensures DescribesRequirement(RequirementOf(serviceId, b), serviceId, b)
  {
    var d := RequirementOf(serviceId, b).entries;
    RequirementKeys(serviceId, b);
    RequirementOrder(serviceId, b);
    forall i | 0 <= i < 9 ensures Lookup(d, d[i].key) == Some(d[i].value) {
      LookupOfEntry(d, d[i]);
    }
    assert d[0].key == "serviceId" && d[1].key == "realisationMode" && d[2].key == "deploymentForm";
    assert d[3].key == "environmentScopeMechanism" && d[4].key == "projectBoundary" && d[5].key == "tenantBoundary";
    assert d[6].key == "accessBoundary" && d[7].key == "productionExposureBoundary" && d[8].key == "proofObligation";
  }

  /** The entry says what the policy of the environment says of the service. */
  function RequirementItem(env: Environment): (Value, Service) -> bool {
    (v: Value, s: Service) => env in s.policies && DescribesRequirement(v, s.serviceId, s.policies[env].boundary)
  }

  /** One entry, in order, for each service owed. */
  predicate DescribesRequirements(items: seq<Value>, catalogue: seq<Service>, env: Environment) {
    Each(items, catalogue, OwedIn(env), RequirementItem(env))
  }

  lemma RequirementsStep(parts: Parts, s: Service, env: Environment, targets: set<string>)
    requires s.Complete() && env != Default && AddService(parts, s, env, targets).Success?
    ensures AddService(parts, s, env, targets).value.requirements
            == if Owed(s, env) then parts.requirements + [RequirementOf(s.serviceId, s.policies[env].boundary)] else parts.requirements
  {
  }

  lemma {:induction false} RequirementsDescribed(catalogue: Catalogue, env: Environment, targets: set<string>)
    requires env != Default && Collect(catalogue, env, targets).Success?
    ensures DescribesRequirements(Collect(catalogue, env, targets).value.requirements, catalogue, env)
  {
    if catalogue == [] {
    } else {
      var shorter: Catalogue := catalogue[..|catalogue| - 1];
      var s := catalogue[|catalogue| - 1];
      RequirementsDescribed(shorter, env, targets);
      var before := Collect(shorter, env, targets).value;
      RequirementsStep(before, s, env, targets);
      RequirementDescribed(s.serviceId, s.policies[env].boundary);
      var item, more := RequirementOf(s.serviceId, s.policies[env].boundary), Collect(catalogue, env, targets).value.requirements;
      assert more == if OwedIn(env)(s) then before.requirements + [item] else before.requirements;
      EachSnoc(before.requirements, item, shorter, s, OwedIn(env), RequirementItem(env));
      assert catalogue == shorter + [s];
    }
  }

  /* ---- Volumes and networks ---- */

  /** Every name is declared with an empty dictionary. */
  predicate AllEmpty(d: seq<Entry>) {
    forall e :: e in d ==> e.value == Map([])
  }

  lemma {:induction false} DefaultsEmpty(d: seq<Entry>, names: seq<string>)
    requires AllEmpty(d) && IsDict(d)
    ensures AllEmpty(SetDefaults(d, names)) && IsDict(SetDefaults(d, names))
  {
    if names == [] {
    } else {
      DefaultsEmpty(d, names[..|names| - 1]);
      var before := SetDefaults(d, names[..|names| - 1]);
      assert forall i :: 0 <= i < |before| ==> before[i].key in Keys(before);
    }
  }

  lemma {:induction false} CollectedEmpty(catalogue: Catalogue, env: Environment, targets: set<string>)
    requires env != Default && Collect(catalogue, env, targets).Success?
    ensures var parts := Collect(catalogue, env, targets).value;
            AllEmpty(parts.volumes) && IsDict(parts.volumes) && AllEmpty(parts.networks) && IsDict(parts.networks)
  {
    if catalogue == [] {
    } else {
      var shorter: Catalogue := catalogue[..|catalogue| - 1];
      var s := catalogue[|catalogue| - 1];
      CollectedEmpty(shorter, env, targets);
      DefaultsEmpty(Collect(shorter, env, targets).value.volumes, s.volumeNames);
      DefaultsEmpty(Collect(shorter, env, targets).value.networks, s.networkNames);
    }
  }

  /** A dictionary with an empty dictionary under each of the names, if there are any. */
  predicate HoldsNames(o: Option<Value>, names: set<string>) {
    if names == {} then o == None
    else o.Some? && o.value.Map? && Keys(o.value.entries) == names && AllEmpty(o.value.entries) && IsDict(o.value.entries)
  }

  lemma NamesHeld(d: seq<Entry>)
    requires AllEmpty(d) && IsDict(d)
    ensures HoldsNames(if d == [] then None else Some(Map(d)), Keys(d))
  {
    assert d != [] ==> d[0].key in Keys(d);
  }

  predicate HoldsRequirements(o: Option<Value>, catalogue: seq<Service>, env: Environment) {
    if forall s :: s in catalogue ==> !Owed(s, env) then o == None
    else o.Some? && o.value.List? && DescribesRequirements(o.value.items, catalogue, env)
  }

  lemma RequirementsHeld(catalogue: Catalogue, env: Environment, targets: set<string>)
    requires env != Default && Collect(catalogue, env, targets).Success?
    ensures var owed := Collect(catalogue, env, targets).value.requirements;
            HoldsRequirements(if owed == [] then None else Some(List(owed)), catalogue, env)
  {
    RequirementsDescribed(catalogue, env, targets);
    NoPositions(catalogue, OwedIn(env));
  }

  lemma {:induction false} NoPositions<T>(s: seq<T>, holds: T -> bool)
    ensures PositionsOf(s, holds) == [] <==> forall x :: x in s ==> !holds(x)
  {
    if s == [] {
    } else {
      var n := |s| - 1;
      NoPositions(s[..n], holds);
      assert s == s[..n] + [s[n]];
      assert s[n] in s && forall x :: x in s[..n] ==> x in s;
    }
  }

  /* ---- The whole model ---- */

  const NAMES: map<Environment, string> :=
    map[Dev := "dev", Test := "test", Staging := "staging", Production := "production"]

  /** What a model holds at its top level. */
  function TopOf(parts: Parts, env: Environment, k: string): Option<Value>
    requires env in NAMES
  {
    if k == "name" then Some(Word("foundation-bootstrap-" + NAMES[env]))
    else if k == "x-usf-generated" then
      Some(Map([Entry("source", Word("spec/instances/compose-service/service-catalogue.json")),
                Entry("environment", Word(NAMES[env]))]))
    else if k == "services" then Some(Map(parts.services))
    else if k == "volumes" then (if parts.volumes == [] then None else Some(Map(parts.volumes)))
    else if k == "networks" then (if parts.networks == [] then None else Some(Map(parts.networks)))
    else if k == "x-usf-requirements" then (if parts.requirements == [] then None else Some(List(parts.requirements)))
    else None
  }

  lemma TopLevel(parts: Parts, env: Environment, k: string)
    requires env in NAMES
    ensures Lookup(Assemble(parts, env), k) == TopOf(parts, env, k)
  {
    var front, services, back := Preamble(env), [Entry("services", Map(parts.services))], Appendix(parts);
    LookupAppend(front, services + back, k);
    LookupAppend(services, back, k);
    PreambleLookup(env, k);
    AppendixLookup(parts, k);
    assert services[1..] == [];
  }

  lemma PreambleLookup(env: Environment, k: string)
    requires env in NAMES
    ensures Lookup(Preamble(env), k)
            == if k == "name" then Some(Word("foundation-bootstrap-" + NAMES[env]))
               else if k == "x-usf-generated" then
                 Some(Map([Entry("source", Word("spec/instances/compose-service/service-catalogue.json")),
                           Entry("environment", Word(NAMES[env]))]))
               else None
  {
    var d := Preamble(env);
    assert EnvironmentName(env) == NAMES[env];
    assert d[1].value == Map([Entry("source", Word(SOURCE)), Entry("environment", Word(NAMES[env]))]);
    assert d[0].value == Word("foundation-bootstrap-" + NAMES[env]);
    assert d[1..] == [d[1]] && d[1..][1..] == [];
    assert Lookup(d[1..], k) == if d[1].key == k then Some(d[1].value) else None;
    assert Lookup(d, k) == if d[0].key == k then Some(d[0].value) else Lookup(d[1..], k);
    assert d[0].key == "name" && d[1].key == "x-usf-generated";
  }

  lemma AppendixLookup(parts: Parts, k: string)
    ensures Lookup(Appendix(parts), k)
            == if k == "volumes" then (if parts.volumes == [] then None else Some(Map(parts.volumes)))
               else if k == "networks" then (if parts.networks == [] then None else Some(Map(parts.networks)))
               else if k == "x-usf-requirements" then (if parts.requirements == [] then None else Some(List(parts.requirements)))
               else None
  {
    var volumes, networks := Given("volumes", Map(parts.volumes)), Given("networks", Map(parts.networks));
    var requirements := Given("x-usf-requirements", List(parts.requirements));
    LookupGiven("volumes", Map(parts.volumes), k);
    LookupGiven("networks", Map(parts.networks), k);
    LookupGiven("x-usf-requirements", List(parts.requirements), k);
    LookupAppend(volumes + networks, requirements, k);
    LookupAppend(volumes, networks, k);
  }

  lemma TopKeys(parts: Parts, env: Environment)
    ensures Follows(KeyList(Assemble(parts, env)), ["name", "x-usf-generated", "services", "volumes", "networks", "x-usf-requirements"])
  {
    var order := ["name", "x-usf-generated", "services", "volumes", "networks", "x-usf-requirements"];
    var front, services := Preamble(env), [Entry("services", Map(parts.services))];
    assert front[0].key == "name" && front[1].key == "x-usf-generated";
    assert KeyList(front + services) == order[..3];
    AppendixKeys(front + services, order, parts);
    assert Assemble(parts, env) == (front + services) + Appendix(parts);
  }

  lemma AppendixKeys(front: seq<Entry>, order: seq<string>, parts: Parts)
    requires |order| == 6 && order[3] == "volumes" && order[4] == "networks" && order[5] == "x-usf-requirements"
    requires KeyList(front) == order[..3]
    ensures Follows(KeyList(front + Appendix(parts)), order)
  {
    var volumes, networks := Given("volumes", Map(parts.volumes)), Given("networks", Map(parts.networks));
    var requirements := Given("x-usf-requirements", List(parts.requirements));
    FollowsItself(order[..3]);
    GivenFollows(front, order, 3, "volumes", Map(parts.volumes));
    GivenFollows(front + volumes, order, 4, "networks", Map(parts.networks));
    GivenFollows(front + volumes + networks, order, 5, "x-usf-requirements", List(parts.requirements));
    assert front + Appendix(parts) == front + volumes + networks + requirements && order[..6] == order;
  }

  /* ---- The order of services, volumes and networks ---- */

  function NonEmpty(names: seq<string>): seq<string> {
    if names == [] then []
    else
      var last := names[|names| - 1];
      NonEmpty(names[..|names| - 1]) + if last == "" then [] else [last]
  }

  /** What the generated services give, one after the other. */
  function InOrder(catalogue: seq<Service>, env: Environment, give: Service -> seq<string>): seq<string> {
    if catalogue == [] then []
    else
      var last := catalogue[|catalogue| - 1];
      InOrder(catalogue[..|catalogue| - 1], env, give) + if IsGenerated(last, env) then give(last) else []
  }

  function OwnName(): Service -> seq<string> {
    (s: Service) => if s.compose.Some? then [s.compose.value.serviceName] else []
  }

  function OwnVolumes(): Service -> seq<string> {
    (s: Service) => NonEmpty(s.volumeNames)
  }

  function OwnNetworks(): Service -> seq<string> {
    (s: Service) => NonEmpty(s.networkNames)
  }

  lemma {:induction false} SetDefaultsKeys(d: seq<Entry>, names: seq<string>)
    ensures KeyList(SetDefaults(d, names)) == Listed(KeyList(d), NonEmpty(names))
  {
    if names == [] {
    } else {
      var n := |names| - 1;
      var before, last, kept := SetDefaults(d, names[..n]), names[n], NonEmpty(names[..n]);
      SetDefaultsKeys(d, names[..n]);
      assert last in Keys(before) <==> last in KeyList(before) by {
        assert forall i :: 0 <= i < |before| ==> before[i] in before && KeyList(before)[i] == before[i].key;
      }
      if last == "" {
        assert kept + [] == kept;
      } else {
        assert (kept + [last])[..|kept|] == kept;
        assert KeyList(before + [Entry(last, Map([]))]) == KeyList(before) + [last];
      }
    }
  }

  lemma ListedOne(before: seq<string>, x: string)
    ensures Listed(before, [x]) == if x in before then before else before + [x]
  {
    assert [x][..0] == [];
  }

  ghost predicate Ordered(parts: Parts, catalogue: seq<Service>, env: Environment) {
    && KeyList(parts.services) == Listed([], InOrder(catalogue, env, OwnName()))
    && KeyList(parts.volumes) == Listed([], InOrder(catalogue, env, OwnVolumes()))
    && KeyList(parts.networks) == Listed([], InOrder(catalogue, env, OwnNetworks()))
  }

  lemma InOrderSnoc(catalogue: seq<Service>, s: Service, env: Environment, give: Service -> seq<string>)
    ensures InOrder(catalogue + [s], env, give) == InOrder(catalogue, env, give) + if IsGenerated(s, env) then give(s) else []
  {
    assert (catalogue + [s])[..|catalogue|] == catalogue;
  }

  lemma NamesStep(d: seq<Entry>, names: seq<string>, catalogue: seq<Service>, s: Service, env: Environment,
                  give: Service -> seq<string>)
    requires KeyList(d) == Listed([], InOrder(catalogue, env, give)) && give(s) == NonEmpty(names)
    ensures KeyList(if IsGenerated(s, env) then SetDefaults(d, names) else d) == Listed([], InOrder(catalogue + [s], env, give))
  {
    InOrderSnoc(catalogue, s, env, give);
    if IsGenerated(s, env) {
      SetDefaultsKeys(d, names);
      ListedTwice([], InOrder(catalogue, env, give), give(s));
    } else {
      assert InOrder(catalogue, env, give) + [] == InOrder(catalogue, env, give);
    }
  }

  lemma ServiceNamesStep(d: seq<Entry>, v: Value, catalogue: seq<Service>, s: Service, env: Environment)
    requires KeyList(d) == Listed([], InOrder(catalogue, env, OwnName()))
    ensures KeyList(if IsGenerated(s, env) then DictSet(d, s.compose.value.serviceName, v) else d)
            == Listed([], InOrder(catalogue + [s], env, OwnName()))
  {
    InOrderSnoc(catalogue, s, env, OwnName());
    if IsGenerated(s, env) {
      var name := s.compose.value.serviceName;
      DictSetKeys(d, name, v);
      ListedOne(KeyList(d), name);
      ListedTwice([], InOrder(catalogue, env, OwnName()), [name]);
    } else {
      assert InOrder(catalogue, env, OwnName()) + [] == InOrder(catalogue, env, OwnName());
    }
  }

  lemma AddedParts(parts: Parts, s: Service, env: Environment, targets: set<string>)
    requires s.Complete() && env != Default && AddService(parts, s, env, targets).Success?
    ensures var more := AddService(parts, s, env, targets).value;
            && more.services == (if IsGenerated(s, env) then DictSet(parts.services, s.compose.value.serviceName, EntryOf(s, env, targets))
                                 else parts.services)
            && more.volumes == (if IsGenerated(s, env) then SetDefaults(parts.volumes, s.volumeNames) else parts.volumes)
            && more.networks == (if IsGenerated(s, env) then SetDefaults(parts.networks, s.networkNames) else parts.networks)
  {
  }

  lemma OrderStep(parts: Parts, catalogue: seq<Service>, s: Service, env: Environment, targets: set<string>)
    requires s.Complete() && env != Default && AddService(parts, s, env, targets).Success? && Ordered(parts, catalogue, env)
    ensures Ordered(AddService(parts, s, env, targets).value, catalogue + [s], env)
  {
    AddedParts(parts, s, env, targets);
    ServiceNamesStep(parts.services, if IsGenerated(s, env) then EntryOf(s, env, targets) else Leaf(Null), catalogue, s, env);
    NamesStep(parts.volumes, s.volumeNames, catalogue, s, env, OwnVolumes());
    NamesStep(parts.networks, s.networkNames, catalogue, s, env, OwnNetworks());
  }

  lemma {:induction false} PartsOrdered(catalogue: Catalogue, env: Environment, targets: set<string>)
    requires env != Default && Collect(catalogue, env, targets).Success?
    ensures Ordered(Collect(catalogue, env, targets).value, catalogue, env)
  {
    if catalogue == [] {
    } else {
      var shorter: Catalogue, s := catalogue[..|catalogue| - 1], catalogue[|catalogue| - 1];
      PartsOrdered(shorter, env, targets);
      assert catalogue == shorter + [s];
      OrderStep(Collect(shorter, env, targets).value, shorter, s, env, targets);
    }
  }

  /** The collected parts hold what the catalogue declares, in its order. */
  ghost predicate Faithful(parts: Parts, catalogue: seq<Service>, env: Environment) {
    && Ordered(parts, catalogue, env)
    && (forall name :: HoldsService(parts.services, catalogue, env, TargetServices(catalogue, env), name))
    && HoldsNames(if parts.volumes == [] then None else Some(Map(parts.volumes)), VolumeNames(catalogue, env))
    && HoldsNames(if parts.networks == [] then None else Some(Map(parts.networks)), NetworkNames(catalogue, env))
    && HoldsRequirements(if parts.requirements == [] then None else Some(List(parts.requirements)), catalogue, env)
  }

  lemma PartsFaithful(catalogue: Catalogue, env: Environment)
    requires env != Default && Collect(catalogue, env, TargetServices(catalogue, env)).Success?
    ensures Faithful(Collect(catalogue, env, TargetServices(catalogue, env)).value, catalogue, env)
  {
    var targets := TargetServices(catalogue, env);
    var parts := Collect(catalogue, env, targets).value;
    forall name ensures HoldsService(parts.services, catalogue, env, targets, name) {
      ServicesHeld(catalogue, env, targets, name);
    }
    PartsOrdered(catalogue, env, targets);
    CollectedNames(catalogue, env, targets);
    CollectedEmpty(catalogue, env, targets);
    NamesHeld(parts.volumes);
    NamesHeld(parts.networks);
    RequirementsHeld(catalogue, env, targets);
  }

  /** A generated model, key by key: its name, the services with what the catalogue declares of each, the volumes and
      networks they name, and in production the services it needs but does not run. */
  lemma ModelContents(catalogue: Catalogue, environment: Environment) returns (parts: Parts)
    requires Model(catalogue, environment).Success?
    ensures var env, model := if environment == Default then Dev else environment, Model(catalogue, environment).value;
            && Faithful(parts, catalogue, env) && env in NAMES
            && (forall k :: Lookup(model, k) == TopOf(parts, env, k))
            && Follows(KeyList(model), ["name", "x-usf-generated", "services", "volumes", "networks", "x-usf-requirements"])
  {
    var env := TargetEnvironment(environment);
    parts := Collect(catalogue, env, TargetServices(catalogue, env)).value;
    PartsFaithful(catalogue, env);
    forall k ensures Lookup(Assemble(parts, env), k) == TopOf(parts, env, k) {
      TopLevel(parts, env, k);
    }
    TopKeys(parts, env);
  }
}
