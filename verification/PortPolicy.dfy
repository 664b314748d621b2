/** Published-port clashes: the grouping loops of the port policy and the pairwise conditions they decide. */
module PortPolicy {

  datatype Environment = Dev | Test | Staging

  datatype Port = Port(name: string, hostIp: string, publishedPort: int, protocol: string, scopes: set<Environment>,
                       profileScope: seq<string>, concurrency: string)

  datatype Service = Service(serviceId: string, ports: seq<Port>)

  /** One port of one service in one environment. */
  datatype Record = Record(port: Port, serviceId: string, environment: Environment)

  datatype Socket = Socket(hostIp: string, port: int, protocol: string)

  datatype Finding =
    | SameEnvironment(environment: Environment, socket: Socket, sharers: seq<Record>)                    // rule 017
    | AcrossEnvironments(socket: Socket, sharers: seq<Record>)                                          // rule 018
    | SameProfile(environment: Environment, socket: Socket, profile: string, sharers: seq<Record>)      // rule 019

  function SocketOf(r: Record): Socket {
    Socket(r.port.hostIp, r.port.publishedPort, r.port.protocol)
  }

  /** The socket and profile a by-profile grouping files a port under. */
  datatype Slot = Slot(record: Record, profile: string)

  function SlotKey(s: Slot): (Socket, string) {
    (SocketOf(s.record), s.profile)
  }

  function Profiles(r: Record): seq<string> {
    if r.port.profileScope == [] then ["<default>"] else r.port.profileScope
  }

  /* ---- The records of an environment ---- */

  function ServicePorts(s: Service, ports: seq<Port>, env: Environment): seq<Record> {
    if ports == [] then []
    else
      var before, last := ServicePorts(s, ports[..|ports| - 1], env), ports[|ports| - 1];
      if env in last.scopes then before + [Record(last, s.serviceId, env)] else before
  }

  function PortsFor(catalogue: seq<Service>, env: Environment): seq<Record> {
    if catalogue == [] then []
    else
      var n := |catalogue| - 1;
      PortsFor(catalogue[..n], env) + ServicePorts(catalogue[n], catalogue[n].ports, env)
  }

  method SemanticPortsForEnvironment(catalogue: seq<Service>, env: Environment) returns (records: seq<Record>)
    ensures records == PortsFor(catalogue, env)
  {
    records := [];
    for i := 0 to |catalogue|
      invariant records == PortsFor(catalogue[..i], env)
    {
      var s := catalogue[i];
      ghost var before := records;
      assert catalogue[..i + 1][..i] == catalogue[..i];
      for j := 0 to |s.ports|
        invariant records == before + ServicePorts(s, s.ports[..j], env)
      {
        assert s.ports[..j + 1][..j] == s.ports[..j];
        if env in s.ports[j].scopes {
          records := records + [Record(s.ports[j], s.serviceId, env)];
        }
      }
      assert s.ports[..|s.ports|] == s.ports;
    }
    assert catalogue[..|catalogue|] == catalogue;
  }

  lemma {:induction false} ServicePortsEnvironment(s: Service, ports: seq<Port>, env: Environment)
    ensures forall r :: r in ServicePorts(s, ports, env) ==> r.environment == env
  {
    if ports == [] {
    } else {
      ServicePortsEnvironment(s, ports[..|ports| - 1], env);
    }
  }

  lemma {:induction false} PortsForEnvironment(catalogue: seq<Service>, env: Environment)
    ensures forall r :: r in PortsFor(catalogue, env) ==> r.environment == env
  {
    if catalogue == [] {
    } else {
      var n := |catalogue| - 1;
      PortsForEnvironment(catalogue[..n], env);
      ServicePortsEnvironment(catalogue[n], catalogue[n].ports, env);
    }
  }

  /** The places of the ports an environment is in the scope of, in catalogue order. */
  function PlacesIn(ports: seq<Port>, i: nat, env: Environment): (at: seq<(nat, nat)>)
    ensures forall n :: 0 <= n < |at| ==> at[n].0 == i && at[n].1 < |ports|
  {
    if ports == [] then []
    else
      var before, j := PlacesIn(ports[..|ports| - 1], i, env), |ports| - 1;
      if env in ports[j].scopes then before + [(i, j)] else before
  }

  function Places(catalogue: seq<Service>, env: Environment): (at: seq<(nat, nat)>)
    ensures forall n :: 0 <= n < |at| ==> at[n].0 < |catalogue| && at[n].1 < |catalogue[at[n].0].ports|
  {
    if catalogue == [] then []
    else
      var i := |catalogue| - 1;
      Places(catalogue[..i], env) + PlacesIn(catalogue[i].ports, i, env)
  }

  predicate Earlier(p: (nat, nat), q: (nat, nat)) {
    p.0 < q.0 || (p.0 == q.0 && p.1 < q.1)
  }

  lemma {:induction false} PlaceInIff(ports: seq<Port>, i: nat, env: Environment, j: nat)
    ensures (i, j) in PlacesIn(ports, i, env) <==> j < |ports| && env in ports[j].scopes
  {
    if ports == [] {
    } else {
      PlaceInIff(ports[..|ports| - 1], i, env, j);
    }
  }

  lemma {:induction false} PlacesInAscend(ports: seq<Port>, i: nat, env: Environment, m: nat, n: nat)
    requires m < n < |PlacesIn(ports, i, env)|
    ensures Earlier(PlacesIn(ports, i, env)[m], PlacesIn(ports, i, env)[n])
  {
    var before := PlacesIn(ports[..|ports| - 1], i, env);
    if n < |before| {
      PlacesInAscend(ports[..|ports| - 1], i, env, m, n);
    }
  }

  /** Every port scoped to the environment has a place, and no other has one. */
  lemma {:induction false} PlaceIff(catalogue: seq<Service>, env: Environment, i: nat, j: nat)
    ensures (i, j) in Places(catalogue, env)
            <==> i < |catalogue| && j < |catalogue[i].ports| && env in catalogue[i].ports[j].scopes
  {
    if catalogue == [] {
    } else {
      var n := |catalogue| - 1;
      PlaceIff(catalogue[..n], env, i, j);
      PlaceInIff(catalogue[n].ports, n, env, j);
    }
  }

  /** Each place is later than those before it. */
  lemma {:induction false} PlacesAscend(catalogue: seq<Service>, env: Environment, m: nat, n: nat)
    requires m < n < |Places(catalogue, env)|
    ensures Earlier(Places(catalogue, env)[m], Places(catalogue, env)[n])
  {
    var i := |catalogue| - 1;
    var before, last := Places(catalogue[..i], env), PlacesIn(catalogue[i].ports, i, env);
    assert Places(catalogue, env) == before + last;
    if n < |before| {
      PlacesAscend(catalogue[..i], env, m, n);
    } else if m >= |before| {
      PlacesInAscend(catalogue[i].ports, i, env, m - |before|, n - |before|);
    }
  }

  lemma {:induction false} ServiceRecord(s: Service, ports: seq<Port>, i: nat, env: Environment, n: nat)
    ensures |PlacesIn(ports, i, env)| == |ServicePorts(s, ports, env)|
    ensures n < |PlacesIn(ports, i, env)| ==>
              ServicePorts(s, ports, env)[n] == Record(ports[PlacesIn(ports, i, env)[n].1], s.serviceId, env)
  {
    if ports == [] {
    } else {
      ServiceRecord(s, ports[..|ports| - 1], i, env, n);
    }
  }

  /** The records of an environment are the ports scoped to it, once each and in order, with the service they belong to. */
  lemma {:induction false} RecordAtPlace(catalogue: seq<Service>, env: Environment, n: nat)
    ensures |Places(catalogue, env)| == |PortsFor(catalogue, env)|
    ensures n < |Places(catalogue, env)| ==>
              var (i, j) := Places(catalogue, env)[n];
              PortsFor(catalogue, env)[n] == Record(catalogue[i].ports[j], catalogue[i].serviceId, env)
  {
    if catalogue == [] {
    } else {
      var i := |catalogue| - 1;
      var before := Places(catalogue[..i], env);
      RecordAtPlace(catalogue[..i], env, n);
      ServiceRecord(catalogue[i], catalogue[i].ports, i, env, if n < |before| then 0 else n - |before|);
    }
  }

  /* ---- Grouping ---- */

  /** The items filed under a key, in order. */
  function Filed<K(==), T>(items: seq<T>, keyOf: T -> K, key: K): seq<T> {
    if items == [] then []
    else
      var before, last := Filed(items[..|items| - 1], keyOf, key), items[|items| - 1];
      if keyOf(last) == key then before + [last] else before
  }

  /** `groups.setdefault(key, []).append(item)` for every item. */
  method Group<K(==), T>(items: seq<T>, keyOf: T -> K) returns (groups: map<K, seq<T>>)
    ensures forall k :: k in groups <==> Filed(items, keyOf, k) != []
    ensures forall k :: k in groups ==> groups[k] == Filed(items, keyOf, k)
  {
    groups := map[];
    for i := 0 to |items|
      invariant forall k :: k in groups <==> Filed(items[..i], keyOf, k) != []
      invariant forall k :: k in groups ==> groups[k] == Filed(items[..i], keyOf, k)
    {
      assert items[..i + 1][..i] == items[..i];
      var key := keyOf(items[i]);
      assert key !in groups ==> Filed(items[..i], keyOf, key) + [items[i]] == [] + [items[i]];
      groups := groups[key := (if key in groups then groups[key] else []) + [items[i]]];
    }
    assert items[..|items|] == items;
  }

  /** A group has a second member exactly when two of the items share its key. */
  lemma {:induction false} FiledTwice<K, T>(items: seq<T>, keyOf: T -> K, key: K)
    ensures |Filed(items, keyOf, key)| > 0 <==> exists i :: 0 <= i < |items| && keyOf(items[i]) == key
    ensures |Filed(items, keyOf, key)| > 1 <==>
            exists i, j :: 0 <= i < j < |items| && keyOf(items[i]) == key && keyOf(items[j]) == key
  {
    if items == [] {
    } else {
      var n := |items| - 1;
      FiledTwice(items[..n], keyOf, key);
      assert forall i :: 0 <= i < n ==> items[..n][i] == items[i];
      if keyOf(items[n]) == key && |Filed(items[..n], keyOf, key)| > 0 {
        var i :| 0 <= i < n && keyOf(items[..n][i]) == key;
        assert keyOf(items[i]) == key && keyOf(items[n]) == key;
      }
    }
  }

  lemma {:induction false} FiledMembers<K, T>(items: seq<T>, keyOf: T -> K, key: K)
    ensures forall x :: x in Filed(items, keyOf, key) <==> x in items && keyOf(x) == key
  {
    if items == [] {
    } else {
      var n := |items| - 1;
      FiledMembers(items[..n], keyOf, key);
      assert items == items[..n] + [items[n]];
    }
  }

  /* ---- The three rules ---- */

  function Slots(records: seq<Record>): seq<Slot> {
    if records == [] then []
    else Slots(records[..|records| - 1]) + SlotsOf(records[|records| - 1], Profiles(records[|records| - 1]))
  }

  function SlotsOf(r: Record, profiles: seq<string>): (slots: seq<Slot>)
    ensures |slots| == |profiles|
  {
    seq(|profiles|, i requires 0 <= i < |profiles| => Slot(r, profiles[i]))
  }

  function RecordsOf(slots: seq<Slot>): seq<Record> {
    seq(|slots|, i requires 0 <= i < |slots| => slots[i].record)
  }

  /** What the two in-environment groupings report. */
  ghost predicate InEnvironment(f: Finding, records: seq<Record>, env: Environment) {
    match f
    case SameEnvironment(e, socket, sharers) => e == env && sharers == Filed(records, SocketOf, socket) && |sharers| > 1
    case SameProfile(e, socket, profile, sharers) =>
      var slots := Filed(Slots(records), SlotKey, (socket, profile));
      e == env && sharers == RecordsOf(slots) && |slots| > 1
    case AcrossEnvironments(_, _) => false
  }

  /** What the cross-environment grouping reports. */
  ghost predicate Across(f: Finding, all: seq<Record>) {
    && f.AcrossEnvironments? && f.sharers == Filed(all, SocketOf, f.socket)
    && |set r | r in f.sharers :: r.environment| > 1
    && exists r :: r in f.sharers && r.port.concurrency != "single-environment-only"
  }

  method ReportGroups(records: seq<Record>, env: Environment) returns (findings: set<Finding>)
    ensures forall f :: f in findings <==> InEnvironment(f, records, env)
  {
    var seen := Group(records, SocketOf);
    findings := {};
    var pending := seen.Keys;
    while pending != {}
      invariant pending <= seen.Keys
      invariant forall f :: f in findings <==> f.SameEnvironment? && InEnvironment(f, records, env) && f.socket !in pending
      decreases pending
    {
      var key :| key in pending;
      if |seen[key]| > 1 {
        findings := findings + {SameEnvironment(env, key, seen[key])};
      }
      pending := pending - {key};
    }
    var slots: seq<Slot> := [];
    for i := 0 to |records|
      invariant slots == Slots(records[..i])
    {
      assert records[..i + 1][..i] == records[..i];
      slots := slots + SlotsOf(records[i], Profiles(records[i]));
    }
    assert records[..|records|] == records;
    var byProfile := Group(slots, SlotKey);
    var rest := byProfile.Keys;
    while rest != {}
      invariant rest <= byProfile.Keys
      invariant forall f :: f in findings <==>
                  InEnvironment(f, records, env) && (f.SameProfile? ==> (f.socket, f.profile) !in rest)
      decreases rest
    {
      var key :| key in rest;
      if |byProfile[key]| > 1 {
        findings := findings + {SameProfile(env, key.0, key.1, RecordsOf(byProfile[key]))};
      }
      rest := rest - {key};
    }
  }

  /** The records of all three environments, in the order the tool visits them. */
  function AllPorts(catalogue: seq<Service>): seq<Record> {
    PortsFor(catalogue, Dev) + PortsFor(catalogue, Test) + PortsFor(catalogue, Staging)
  }

  method ReportAcross(all: seq<Record>) returns (findings: set<Finding>)
    ensures forall f :: f in findings <==> Across(f, all)
  {
    var cross := Group(all, SocketOf);
    findings := {};
    var pending := cross.Keys;
    while pending != {}
      invariant pending <= cross.Keys
      invariant forall f :: f in findings <==> Across(f, all) && f.socket !in pending
      decreases pending
    {
      var key :| key in pending;
      var environments := set r | r in cross[key] :: r.environment;
      if |environments| > 1 && exists r :: r in cross[key] && r.port.concurrency != "single-environment-only" {
        findings := findings + {AcrossEnvironments(key, cross[key])};
      }
      pending := pending - {key};
    }
  }

  ghost predicate Reported(f: Finding, catalogue: seq<Service>) {
    || InEnvironment(f, PortsFor(catalogue, Dev), Dev)
    || InEnvironment(f, PortsFor(catalogue, Test), Test)
    || InEnvironment(f, PortsFor(catalogue, Staging), Staging)
    || Across(f, AllPorts(catalogue))
  }

  /** Rules 017, 018 and 019 over a catalogue. */
  method ValidatePortPolicy(catalogue: seq<Service>) returns (findings: set<Finding>)
    ensures forall f :: f in findings <==> Reported(f, catalogue)
  {
    var dev := SemanticPortsForEnvironment(catalogue, Dev);
    var test := SemanticPortsForEnvironment(catalogue, Test);
    var staging := SemanticPortsForEnvironment(catalogue, Staging);
    var inDev := ReportGroups(dev, Dev);
    var inTest := ReportGroups(test, Test);
    var inStaging := ReportGroups(staging, Staging);
    var across := ReportAcross(dev + test + staging);
    findings := inDev + inTest + inStaging + across;
  }

  /* ---- The pairwise conditions ---- */

  /** Two of the records use one socket. */
  ghost predicate Clash(records: seq<Record>, socket: Socket) {
    exists i, j :: 0 <= i < j < |records| && SocketOf(records[i]) == socket && SocketOf(records[j]) == socket
  }

  predicate Uses(r: Record, socket: Socket, profile: string) {
    SocketOf(r) == socket && profile in Profiles(r)
  }

  /** Two of the records use one socket under one profile. */
  ghost predicate ProfileClash(records: seq<Record>, socket: Socket, profile: string) {
    exists i, j :: 0 <= i < j < |records| && Uses(records[i], socket, profile) && Uses(records[j], socket, profile)
  }

  predicate Distinct<T(==)>(s: seq<T>) {
    forall i, j :: 0 <= i < j < |s| ==> s[i] != s[j]
  }

  /** Rule 017 fires for a socket of an environment exactly when two of its port records use it. */
  lemma SameEnvironmentIffClash(catalogue: seq<Service>, env: Environment, socket: Socket)
    ensures (exists f: Finding :: f.SameEnvironment? && f.environment == env && f.socket == socket && Reported(f, catalogue))
            <==> Clash(PortsFor(catalogue, env), socket)
  {
    var records := PortsFor(catalogue, env);
    var f := SameEnvironment(env, socket, Filed(records, SocketOf, socket));
    FiledTwice(records, SocketOf, socket);
    if |f.sharers| > 1 {
      ReportedWhere(f, catalogue);
    }
    if g: Finding :| g.SameEnvironment? && g.environment == env && g.socket == socket && Reported(g, catalogue) {
      ReportedWhere(g, catalogue);
    }
  }

  lemma ReportedWhere(f: Finding, catalogue: seq<Service>)
    requires !f.AcrossEnvironments?
    ensures Reported(f, catalogue) <==> InEnvironment(f, PortsFor(catalogue, f.environment), f.environment)
  {
    match f.environment
    case Dev =>
    case Test =>
    case Staging =>
  }

  lemma TwoEnvironments(sharers: seq<Record>)
    ensures |set r | r in sharers :: r.environment| > 1
            <==> exists r, q :: r in sharers && q in sharers && r.environment != q.environment
  {
    var environments := set r | r in sharers :: r.environment;
    if |environments| > 1 {
      var a :| a in environments;
      assert |environments - {a}| > 0;
      var b :| b in environments - {a};
    }
    if exists r, q :: r in sharers && q in sharers && r.environment != q.environment {
      var r, q :| r in sharers && q in sharers && r.environment != q.environment;
      assert {r.environment, q.environment} <= environments;
      assert |environments - {r.environment}| >= 1 by { assert q.environment in environments - {r.environment}; }
    }
  }

  ghost predicate UsedIn(catalogue: seq<Service>, env: Environment, socket: Socket) {
    exists r :: r in PortsFor(catalogue, env) && SocketOf(r) == socket
  }

  lemma AllPortsMembers(catalogue: seq<Service>, r: Record)
    ensures r in AllPorts(catalogue) <==> r in PortsFor(catalogue, r.environment)
  {
    PortsForEnvironment(catalogue, Dev);
    PortsForEnvironment(catalogue, Test);
    PortsForEnvironment(catalogue, Staging);
    match r.environment
    case Dev =>
    case Test =>
    case Staging =>
  }

  lemma UsedTwiceIff(catalogue: seq<Service>, socket: Socket)
    ensures (exists r, q :: r in AllPorts(catalogue) && q in AllPorts(catalogue)
               && SocketOf(r) == socket && SocketOf(q) == socket && r.environment != q.environment)
            <==> exists e1, e2 :: e1 != e2 && UsedIn(catalogue, e1, socket) && UsedIn(catalogue, e2, socket)
  {
    forall r { AllPortsMembers(catalogue, r); }
    if e1, e2 :| e1 != e2 && UsedIn(catalogue, e1, socket) && UsedIn(catalogue, e2, socket) {
      PortsForEnvironment(catalogue, e1);
      PortsForEnvironment(catalogue, e2);
      var r :| r in PortsFor(catalogue, e1) && SocketOf(r) == socket;
      var q :| q in PortsFor(catalogue, e2) && SocketOf(q) == socket;
      assert r in AllPorts(catalogue) && q in AllPorts(catalogue);
    }
    if r, q :| r in AllPorts(catalogue) && q in AllPorts(catalogue)
               && SocketOf(r) == socket && SocketOf(q) == socket && r.environment != q.environment {
      assert UsedIn(catalogue, r.environment, socket) && UsedIn(catalogue, q.environment, socket);
    }
  }

  /** Rule 018 fires for a socket exactly when two environments use it and some user may run beside another environment. */
  lemma AcrossIffShared(catalogue: seq<Service>, socket: Socket)
    ensures (exists f: Finding :: f.AcrossEnvironments? && f.socket == socket && Reported(f, catalogue))
            <==> && (exists e1, e2 :: e1 != e2 && UsedIn(catalogue, e1, socket) && UsedIn(catalogue, e2, socket))
                 && (exists r :: r in AllPorts(catalogue) && SocketOf(r) == socket
                       && r.port.concurrency != "single-environment-only")
  {
    var all := AllPorts(catalogue);
    var sharers := Filed(all, SocketOf, socket);
    FiledMembers(all, SocketOf, socket);
    TwoEnvironments(sharers);
    UsedTwiceIff(catalogue, socket);
    assert Across(AcrossEnvironments(socket, sharers), all) ==> Reported(AcrossEnvironments(socket, sharers), catalogue);
  }

  lemma {:induction false} FiledConcat<K, T>(a: seq<T>, b: seq<T>, keyOf: T -> K, key: K)
    ensures Filed(a + b, keyOf, key) == Filed(a, keyOf, key) + Filed(b, keyOf, key)
  {
    if b == [] {
      assert a + b == a;
    } else {
      var n := |b| - 1;
      FiledConcat(a, b[..n], keyOf, key);
      assert (a + b)[..|a + b| - 1] == a + b[..n];
    }
  }

  /** A port without profiles is filed under the default one, as if it listed that. */
  lemma UnscopedPort(r: Record, profile: string)
    ensures r.port.profileScope == [] ==> (Uses(r, SocketOf(r), profile) <==> profile == "<default>")
    ensures r.port.profileScope != [] ==> (Uses(r, SocketOf(r), profile) <==> profile in r.port.profileScope)
  {
  }

  /** The record uses the socket and lists the profile twice. */
  predicate Repeats(r: Record, socket: Socket, profile: string) {
    && SocketOf(r) == socket
    && exists i, j :: 0 <= i < j < |Profiles(r)| && Profiles(r)[i] == profile && Profiles(r)[j] == profile
  }

  /** A port takes one slot for each time it lists a profile. */
  lemma SlotsOfOne(r: Record, socket: Socket, profile: string)
    ensures var slots := Filed(SlotsOf(r, Profiles(r)), SlotKey, (socket, profile));
            && (|slots| > 0 <==> Uses(r, socket, profile))
            && (|slots| > 1 <==> Repeats(r, socket, profile))
  {
    var profiles := Profiles(r);
    var all := SlotsOf(r, profiles);
    FiledTwice(all, SlotKey, (socket, profile));
    assert forall i :: 0 <= i < |profiles| ==> SlotKey(all[i]) == (SocketOf(r), profiles[i]);
  }

  ghost predicate SomeUses(records: seq<Record>, socket: Socket, profile: string) {
    exists i :: 0 <= i < |records| && Uses(records[i], socket, profile)
  }

  ghost predicate SomeRepeats(records: seq<Record>, socket: Socket, profile: string) {
    exists i :: 0 <= i < |records| && Repeats(records[i], socket, profile)
  }

  function SlotsUnder(records: seq<Record>, socket: Socket, profile: string): nat {
    |Filed(Slots(records), SlotKey, (socket, profile))|
  }

  lemma SlotsGrow(records: seq<Record>, socket: Socket, profile: string)
    requires records != []
    ensures var before, last := records[..|records| - 1], records[|records| - 1];
            SlotsUnder(records, socket, profile)
            == SlotsUnder(before, socket, profile) + |Filed(SlotsOf(last, Profiles(last)), SlotKey, (socket, profile))|
  {
    var before, last := records[..|records| - 1], records[|records| - 1];
    FiledConcat(Slots(before), SlotsOf(last, Profiles(last)), SlotKey, (socket, profile));
  }

  lemma {:induction false} SlotsOfAll(records: seq<Record>, socket: Socket, profile: string)
    ensures SlotsUnder(records, socket, profile) > 0 <==> SomeUses(records, socket, profile)
    ensures SlotsUnder(records, socket, profile) > 1
            <==> ProfileClash(records, socket, profile) || SomeRepeats(records, socket, profile)
  {
    if records == [] {
    } else {
      var before, last := records[..|records| - 1], records[|records| - 1];
      SlotsOfAll(before, socket, profile);
      SlotsGrow(records, socket, profile);
      SlotsOfOne(last, socket, profile);
      SomeGrows(records, socket, profile);
      ClashGrows(records, socket, profile);
    }
  }

  lemma SomeGrows(records: seq<Record>, socket: Socket, profile: string)
    requires records != []
    ensures var before, last := records[..|records| - 1], records[|records| - 1];
            && (SomeUses(records, socket, profile) <==> SomeUses(before, socket, profile) || Uses(last, socket, profile))
            && (SomeRepeats(records, socket, profile) <==> SomeRepeats(before, socket, profile) || Repeats(last, socket, profile))
  {
    var before := records[..|records| - 1];
    assert forall i :: 0 <= i < |before| ==> records[i] == before[i];
  }

  lemma ClashGrows(records: seq<Record>, socket: Socket, profile: string)
    requires records != []
    ensures var before, last := records[..|records| - 1], records[|records| - 1];
            ProfileClash(records, socket, profile) <==>
              || ProfileClash(before, socket, profile)
              || (Uses(last, socket, profile) && SomeUses(before, socket, profile))
  {
    var before := records[..|records| - 1];
    if ProfileClash(records, socket, profile) {
      ClashSplits(records, socket, profile);
    }
    if i, j :| 0 <= i < j < |before| && Uses(before[i], socket, profile) && Uses(before[j], socket, profile) {
      assert Uses(records[i], socket, profile) && Uses(records[j], socket, profile);
    }
    if i :| 0 <= i < |before| && Uses(before[i], socket, profile) {
      assert Uses(records[i], socket, profile);
    }
  }

  lemma ClashSplits(records: seq<Record>, socket: Socket, profile: string)
    requires records != [] && ProfileClash(records, socket, profile)
    ensures var before, last := records[..|records| - 1], records[|records| - 1];
            ProfileClash(before, socket, profile) || (Uses(last, socket, profile) && SomeUses(before, socket, profile))
  {
    var before := records[..|records| - 1];
    var i, j :| 0 <= i < j < |records| && Uses(records[i], socket, profile) && Uses(records[j], socket, profile);
    assert Uses(before[i], socket, profile);
    if j < |before| {
      assert Uses(before[j], socket, profile);
    }
  }

  ghost predicate ProfileReported(catalogue: seq<Service>, env: Environment, socket: Socket, profile: string) {
    exists f: Finding :: f.SameProfile? && f.environment == env && f.socket == socket && f.profile == profile && Reported(f, catalogue)
  }

  lemma ProfileReportedIffSlots(catalogue: seq<Service>, env: Environment, socket: Socket, profile: string)
    ensures ProfileReported(catalogue, env, socket, profile)
            <==> |Filed(Slots(PortsFor(catalogue, env)), SlotKey, (socket, profile))| > 1
  {
    var slots := Filed(Slots(PortsFor(catalogue, env)), SlotKey, (socket, profile));
    if |slots| > 1 {
      var f := SameProfile(env, socket, profile, RecordsOf(slots));
      ReportedWhere(f, catalogue);
    }
    if f: Finding :| f.SameProfile? && f.environment == env && f.socket == socket && f.profile == profile && Reported(f, catalogue) {
      ReportedWhere(f, catalogue);
    }
  }

  /** Rule 019 fires for a socket and a profile exactly when two records share both, or some user of the socket lists the
      profile twice. */
  lemma SameProfileIffProfileClash(catalogue: seq<Service>, env: Environment, socket: Socket, profile: string)
    ensures ProfileReported(catalogue, env, socket, profile)
            <==> || ProfileClash(PortsFor(catalogue, env), socket, profile)
                 || SomeRepeats(PortsFor(catalogue, env), socket, profile)
  {
    ProfileReportedIffSlots(catalogue, env, socket, profile);
    SlotsOfAll(PortsFor(catalogue, env), socket, profile);
  }

  /** Every 019 clash of an environment is a 017 clash exactly when each port that repeats a profile shares its socket
      with another port anyway. */
  lemma ProfileClashesAreClashesIff(catalogue: seq<Service>, env: Environment)
    ensures (forall socket, profile :: ProfileReported(catalogue, env, socket, profile) ==> Clash(PortsFor(catalogue, env), socket))
            <==> forall r :: r in PortsFor(catalogue, env) && !Distinct(Profiles(r)) ==> Clash(PortsFor(catalogue, env), SocketOf(r))
  {
    var records := PortsFor(catalogue, env);
    if forall socket, profile :: ProfileReported(catalogue, env, socket, profile) ==> Clash(records, socket) {
      forall r | r in records && !Distinct(Profiles(r)) ensures Clash(records, SocketOf(r)) {
        var n :| 0 <= n < |records| && records[n] == r;
        var i, j :| 0 <= i < j < |Profiles(r)| && Profiles(r)[i] == Profiles(r)[j];
        var profile := Profiles(r)[i];
        assert Repeats(records[n], SocketOf(r), profile);
        SameProfileIffProfileClash(catalogue, env, SocketOf(r), profile);
        assert ProfileReported(catalogue, env, SocketOf(r), profile);
      }
    }
    if forall r :: r in records && !Distinct(Profiles(r)) ==> Clash(records, SocketOf(r)) {
      forall socket, profile | ProfileReported(catalogue, env, socket, profile) ensures Clash(records, socket) {
        SameProfileIffProfileClash(catalogue, env, socket, profile);
        if !ProfileClash(records, socket, profile) {
          var n :| 0 <= n < |records| && Repeats(records[n], socket, profile);
          assert records[n] in records;
        }
      }
    }
  }

  lemma OnePort(port: Port, serviceId: string)
    requires Dev in port.scopes
    ensures PortsFor([Service(serviceId, [port])], Dev) == [Record(port, serviceId, Dev)]
    ensures Slots([Record(port, serviceId, Dev)])
            == SlotsOf(Record(port, serviceId, Dev), Profiles(Record(port, serviceId, Dev)))
  {
    var s, r := Service(serviceId, [port]), Record(port, serviceId, Dev);
    assert s.ports[..0] == [] && [s][..0] == [] && [r][..0] == [];
    assert ServicePorts(s, [port], Dev) == [r];
  }

  /** A single port that lists a profile twice conflicts with itself under rule 019, while rule 017 stays silent. */
  lemma RepeatedProfileFiresAlone(port: Port, serviceId: string, profile: string)
    requires Dev in port.scopes && port.profileScope == [profile, profile]
    ensures var catalogue := [Service(serviceId, [port])];
            var socket := Socket(port.hostIp, port.publishedPort, port.protocol);
            ProfileReported(catalogue, Dev, socket, profile) && !Clash(PortsFor(catalogue, Dev), socket)
  {
    var catalogue, r := [Service(serviceId, [port])], Record(port, serviceId, Dev);
    OnePort(port, serviceId);
    var slots := Slots([r]);
    ProfileReportedIffSlots(catalogue, Dev, SocketOf(r), profile);
    FiledTwice(slots, SlotKey, (SocketOf(r), profile));
    assert SlotKey(slots[0]) == SlotKey(slots[1]) == (SocketOf(r), profile);
  }
}
