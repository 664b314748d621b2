/** The per-process JSON parse cache: what it stores, what it returns, and when that is the current document. */
module JsonCache {
  import opened Wrappers
  import opened JsonValue
  import opened JsonHeap

  datatype File = File(mtime: int, size: int, text: string)

  /** Files by resolved path; `resolve` is the canonical path a path leads to. */
  datatype Disk = Disk(resolve: string -> string, files: map<string, File>)

  datatype Stamp = Stamp(path: string, mtime: int, size: int)

  datatype Error = NoSuchFile | NotJson

  type Parser = string -> Option<Json>

  function StampOf(path: string, f: File): Stamp {
    Stamp(path, f.mtime, f.size)
  }

  /** Opening and parsing the file now, without a cache. */
  function FreshParse(parse: Parser, disk: Disk, path: string): Result<Json, Error> {
    var p := disk.resolve(path);
    if p !in disk.files then Failure(NoSuchFile)
    else match parse(disk.files[p].text)
      case None => Failure(NotJson)
      case Some(j) => Success(j)
  }

  /** The cache as a value: parsed documents by key, and the two counters. */
  datatype Model = Model(cached: map<Stamp, Json>, hits: nat, misses: nat)

  function LoadModel(parse: Parser, m: Model, disk: Disk, path: string): (Model, Result<Json, Error>) {
    var p := disk.resolve(path);
    if p !in disk.files then (m, Failure(NoSuchFile))
    else
      var key := StampOf(p, disk.files[p]);
      if key in m.cached then (m.(hits := m.hits + 1), Success(m.cached[key]))
      else match parse(disk.files[p].text)
        case None => (m, Failure(NotJson))
        case Some(j) => (m.(cached := m.cached[key := j], misses := m.misses + 1), Success(j))
  }

  /** The cached objects lie within `owned`, laid out as recorded. */
  ghost predicate Stored(values: map<Stamp, Node>, shapes: map<Stamp, Shape>, owned: set<Node>)
    reads owned
  {
    && values.Keys == shapes.Keys
    && forall k :: k in shapes ==> Nodes(shapes[k]) <= owned && Document(values[k], shapes[k])
  }

  ghost function Trees(shapes: map<Stamp, Shape>): map<Stamp, Json> {
    map k | k in shapes :: Tree(shapes[k])
  }

  class JsonCache {
    const parse: Parser
    var values: map<Stamp, Node>
    var hits: nat
    var misses: nat
    ghost var shapes: map<Stamp, Shape>
    ghost var owned: set<Node>

    ghost predicate Valid()
      reads this, owned
    {
      Stored(values, shapes, owned)
    }

    ghost function State(): Model
      reads this
    {
      Model(Trees(shapes), hits, misses)
    }

    /** Writes to objects outside the owned ones cannot disturb the cache. */
    twostate lemma StillValid()
      requires old(Valid()) && values == old(values) && shapes == old(shapes) && owned == old(owned)
      requires forall o :: o in owned && old(allocated(o)) ==> o.content == old(o.content)
      ensures Valid()
    {
      forall k | k in shapes ensures Document(values[k], shapes[k]) {
        HoldsFrame(shapes[k]);
      }
    }

    constructor (parse: Parser)
      ensures Valid() && State() == Model(map[], 0, 0) && this.parse == parse && owned == {}
    {
      this.parse := parse;
      values, hits, misses, shapes, owned := map[], 0, 0, map[], {};
    }

    /** Keeps a newly parsed document under its key. */
    method Store(key: Stamp, j: Json)
      requires Valid() && key !in values
      modifies this
      ensures Valid() && fresh(owned - old(owned))
      ensures State() == Model(old(State()).cached[key := j], old(hits), old(misses) + 1) && key in values
    {
      var value, stored := Build(j);
      StillValid();
      Keep(key, value, stored);
    }

    method Keep(key: Stamp, value: Node, ghost stored: Shape)
      requires Valid() && Document(value, stored)
      modifies this
      ensures Valid() && owned == old(owned) + Nodes(stored)
      ensures State() == Model(old(State()).cached[key := Tree(stored)], old(hits), old(misses) + 1) && key in values
    {
      assert Trees(shapes[key := stored]) == Trees(shapes)[key := Tree(stored)];
      values := values[key := value];
      shapes := shapes[key := stored];
      owned := owned + Nodes(stored);
      misses := misses + 1;
      forall k | k in shapes ensures Document(values[k], shapes[k]) {
        HoldsFrame(shapes[k]);
      }
    }

    /** An isolated copy of a cached document. */
    method CopyOut(key: Stamp) returns (n: Node, ghost s: Shape)
      requires Valid() && key in values
      ensures Valid() && Document(n, s) && Tree(s) == State().cached[key]
      ensures fresh(Nodes(s)) && Nodes(s) !! owned
    {
      n, s := DeepCopy(values[key], shapes[key]);
      StillValid();
    }

    /** Returns a document made of objects that nobody else has seen, laid out as `s`. */
    method Load(disk: Disk, path: string) returns (r: Result<Node, Error>, ghost s: Option<Shape>)
      requires Valid()
      modifies this
      ensures Valid() && fresh(owned - old(owned))
      ensures State() == LoadModel(parse, old(State()), disk, path).0
      ensures Returned(r, s) == LoadModel(parse, old(State()), disk, path).1
      ensures r.Success? ==> s.Some? && Document(r.value, s.value) && fresh(Nodes(s.value)) && Nodes(s.value) !! owned
    {
      s := None;
      var resolved := disk.resolve(path);
      if resolved !in disk.files {
        return Failure(NoSuchFile), None;
      }
      var stat := disk.files[resolved];
      var key := StampOf(resolved, stat);
      if key in values {
        hits := hits + 1;
        var copy, shape := CopyOut(key);
        return Success(copy), Some(shape);
      }
      var parsed := parse(stat.text);
      if parsed.None? {
        return Failure(NotJson), None;
      }
      Store(key, parsed.value);
      var copy, shape := CopyOut(key);
      return Success(copy), Some(shape);
    }
  }

  /** The document or the error a load handed over. */
  ghost function Returned(r: Result<Node, Error>, s: Option<Shape>): Result<Json, Error> {
    match (r, s)
    case (Success(_), Some(shape)) => Success(Tree(shape))
    case (Success(_), None) => Failure(NotJson)
    case (Failure(e), _) => Failure(e)
  }

  /* ---- Whole sessions ---- */

  /** An object reached from the `doc`-th returned document by subscripting. */
  datatype Handle = Handle(doc: nat, route: seq<Step>)

  /** What a caller may do to a list or dictionary it was given. */
  datatype Change =
    | Overwrite(scalar: Scalar)
    | MakeList
    | MakeDict
    | Append(item: Handle)
    | SetField(k: string, v: Handle)
    | DropField(k: string)

  datatype Event =
    | Load(path: string)
    | Write(path: string, file: File)
    | Delete(path: string)
    | Mutate(target: Handle, change: Change)

  /** The disk after one event; loading and mutating touch no file. */
  function DiskAfter(disk: Disk, e: Event): Disk {
    match e
    case Write(p, f) => disk.(files := disk.files[p := f])
    case Delete(p) => disk.(files := disk.files - {p})
    case _ => disk
  }

  function DisksAfter(disk: Disk, events: seq<Event>): Disk {
    if events == [] then disk else DiskAfter(DisksAfter(disk, events[..|events| - 1]), events[|events| - 1])
  }

  /** What the loads of a session return, in order, and the cache at its end; mutations play no part in it. */
  function Run(parse: Parser, disk: Disk, events: seq<Event>): (Model, seq<Result<Json, Error>>) {
    if events == [] then (Model(map[], 0, 0), [])
    else
      var before := events[..|events| - 1];
      var (m, log) := Run(parse, disk, before);
      match events[|events| - 1]
      case Load(path) =>
        var (m', r) := LoadModel(parse, m, DisksAfter(disk, before), path);
        (m', log + [r])
      case _ => (m, log)
  }

  /** What a session without a cache returns. */
  function Direct(parse: Parser, disk: Disk, events: seq<Event>): seq<Result<Json, Error>> {
    if events == [] then []
    else
      var before := events[..|events| - 1];
      match events[|events| - 1]
      case Load(path) => Direct(parse, disk, before) + [FreshParse(parse, DisksAfter(disk, before), path)]
      case _ => Direct(parse, disk, before)
  }

  /* ---- Counters ---- */

  function Completed(log: seq<Result<Json, Error>>): nat {
    if log == [] then 0
    else Completed(log[..|log| - 1]) + if log[|log| - 1].Success? then 1 else 0
  }

  /** In every session each cached key was missed once, and each completed load was a hit or a miss. */
  lemma {:induction false} CountersAddUp(parse: Parser, disk: Disk, events: seq<Event>)
    ensures var (m, log) := Run(parse, disk, events);
            m.misses == |m.cached| && m.hits + m.misses == Completed(log)
  {
    if events == [] {
    } else {
      var before := events[..|events| - 1];
      CountersAddUp(parse, disk, before);
      var (m, log) := Run(parse, disk, before);
      match events[|events| - 1]
      case Load(path) =>
        var (m', r) := LoadModel(parse, m, DisksAfter(disk, before), path);
        assert (log + [r])[..|log + [r]| - 1] == log;
      case _ =>
    }
  }

  /* ---- When the cache is transparent ---- */

  type Versions = set<(string, File)>

  ghost predicate Within(versions: Versions, disk: Disk) {
    forall p :: p in disk.files ==> (p, disk.files[p]) in versions
  }

  ghost predicate WritesWithin(versions: Versions, events: seq<Event>) {
    forall e :: e in events && e.Write? ==> (e.path, e.file) in versions
  }

  predicate SameStat(f: File, g: File) {
    f.mtime == g.mtime && f.size == g.size
  }

  /** No two versions of a file share modification time and size while parsing differently. */
  ghost predicate Honest(parse: Parser, versions: Versions) {
    forall p, f, g :: (p, f) in versions && (p, g) in versions && SameStat(f, g) ==> parse(f.text) == parse(g.text)
  }

  /** Whatever the order of loads, writes, deletions and mutations, every load returns what a fresh parse would. */
  ghost predicate Transparent(parse: Parser, versions: Versions) {
    forall disk, events :: Within(versions, disk) && WritesWithin(versions, events)
      ==> Run(parse, disk, events).1 == Direct(parse, disk, events)
  }

  lemma {:induction false} DiskStaysWithin(versions: Versions, disk: Disk, events: seq<Event>)
    requires Within(versions, disk) && WritesWithin(versions, events)
    ensures Within(versions, DisksAfter(disk, events))
  {
    if events == [] {
    } else {
      DiskStaysWithin(versions, disk, events[..|events| - 1]);
      assert events[|events| - 1] in events;
    }
  }

  /** Every cached document is the parse of each version carrying its stamp. */
  ghost predicate Current(parse: Parser, versions: Versions, cached: map<Stamp, Json>) {
    forall p, f :: (p, f) in versions && StampOf(p, f) in cached ==> parse(f.text) == Some(cached[StampOf(p, f)])
  }

  lemma {:induction false} HonestRuns(parse: Parser, versions: Versions, disk: Disk, events: seq<Event>)
    requires Honest(parse, versions) && Within(versions, disk) && WritesWithin(versions, events)
    ensures Run(parse, disk, events).1 == Direct(parse, disk, events)
    ensures Current(parse, versions, Run(parse, disk, events).0.cached)
  {
    if events == [] {
    } else {
      var before := events[..|events| - 1];
      HonestRuns(parse, versions, disk, before);
      match events[|events| - 1]
      case Load(path) =>
        DiskStaysWithin(versions, disk, before);
      case _ =>
    }
  }

  /** Load a file, let another version take its place, load it again. */
  function Reload(p: string, g: File): seq<Event> {
    [Load(p), Write(p, g), Load(p)]
  }

  lemma ReloadIsStale(parse: Parser, p: string, f: File, g: File)
    requires SameStat(f, g) && parse(f.text).Some? && parse(f.text) != parse(g.text)
    ensures var disk := Disk(x => x, map[p := f]);
            Run(parse, disk, Reload(p, g)).1 != Direct(parse, disk, Reload(p, g))
  {
    var disk := Disk(x => x, map[p := f]);
    var e1, e2 := [Load(p)], [Load(p), Write(p, g)];
    var j := parse(f.text).value;
    RunLoad(parse, disk, [], p);
    assert [] + [Load(p)] == e1;
    assert LoadModel(parse, Model(map[], 0, 0), disk, p) == (Model(map[StampOf(p, f) := j], 0, 1), Success(j));
    assert [] + [Result<Json, Error>.Success(j)] == [Success(j)];
    assert Run(parse, disk, e1) == (Model(map[StampOf(p, f) := j], 0, 1), [Success(j)]);
    assert e2[..1] == e1 && e1[..0] == [];
    assert DisksAfter(disk, e1) == disk;
    assert DisksAfter(disk, e2).files == map[p := g];
    RunLoad(parse, disk, e2, p);
    assert e2 + [Load(p)] == Reload(p, g);
    assert Run(parse, disk, Reload(p, g)).1[1] == Success(j);
  }

  lemma RunLoad(parse: Parser, disk: Disk, before: seq<Event>, path: string)
    ensures var (m, log) := Run(parse, disk, before);
            var (m', r) := LoadModel(parse, m, DisksAfter(disk, before), path);
            Run(parse, disk, before + [Load(path)]) == (m', log + [r])
    ensures Direct(parse, disk, before + [Load(path)])
            == Direct(parse, disk, before) + [FreshParse(parse, DisksAfter(disk, before), path)]
  {
    var events := before + [Load(path)];
    assert events[..|events| - 1] == before;
  }

  /** The cache agrees with direct parsing in every session over a set of file versions exactly when a file's
      modification time and size tell apart those versions that parse differently. */
  lemma TransparentIffHonest(parse: Parser, versions: Versions)
    ensures Transparent(parse, versions) <==> Honest(parse, versions)
  {
    if Honest(parse, versions) {
      forall disk, events | Within(versions, disk) && WritesWithin(versions, events)
        ensures Run(parse, disk, events).1 == Direct(parse, disk, events)
      {
        HonestRuns(parse, versions, disk, events);
      }
    }
    if Transparent(parse, versions) {
      forall p, f, g | (p, f) in versions && (p, g) in versions && SameStat(f, g)
        ensures parse(f.text) == parse(g.text)
      {
        if parse(f.text) != parse(g.text) {
          var (f', g') := if parse(f.text).Some? then (f, g) else (g, f);
          ReloadIsStale(parse, p, f', g');
          assert Within(versions, Disk(x => x, map[p := f']));
          assert WritesWithin(versions, Reload(p, g'));
        }
      }
    }
  }

  /** Changing modification time or size with each edit is not enough: a later edit may bring an old stamp back. */
  lemma EditsMayRestoreAStamp(parse: Parser, p: string, a: File, b: File, c: File)
    requires !SameStat(a, b) && !SameStat(b, c) && SameStat(a, c)
    requires parse(a.text).Some? && parse(c.text) != parse(a.text)
    ensures !Transparent(parse, {(p, a), (p, b), (p, c)})
  {
    var versions := {(p, a), (p, b), (p, c)};
    assert (p, a) in versions && (p, c) in versions;
    TransparentIffHonest(parse, versions);
  }

  /* ---- The session on the real objects ---- */

  function Kids(c: Content): set<Node> {
    match c
    case Value(_) => {}
    case Items(kids) => set n | n in kids
    case Fields(entries) => set k | k in entries :: entries[k]
  }

  /** Everything the caller can reach stays among the caller's objects. */
  ghost predicate Closed(mine: set<Node>)
    reads mine
  {
    forall n :: n in mine ==> Kids(n.content) <= mine
  }

  lemma {:induction false} DocumentClosed(s: Shape)
    requires Holds(s)
    ensures Closed(Nodes(s))
  {
    match s
    case SLeaf(_, _) =>
    case SArr(_, items) =>
      forall i | 0 <= i < |items| ensures Closed(Nodes(items[i])) && items[i].node in Nodes(items[i]) {
        DocumentClosed(items[i]);
      }
    case SObj(_, fields) =>
      forall k | k in fields ensures Closed(Nodes(fields[k])) && fields[k].node in Nodes(fields[k]) {
        DocumentClosed(fields[k]);
      }
  }

  /** Subscripts its way down from a returned document; `None` when a subscript fails. */
  method Follow(roots: seq<Node>, h: Handle, ghost mine: set<Node>) returns (r: Option<Node>)
    requires Closed(mine) && forall n :: n in roots ==> n in mine
    ensures r.Some? ==> r.value in mine
  {
    if h.doc >= |roots| {
      return None;
    }
    var n := roots[h.doc];
    for i := 0 to |h.route|
      invariant n in mine
    {
      match (n.content, h.route[i])
      case (Items(kids), Index(j)) =>
        if j >= |kids| {
          return None;
        }
        n := kids[j];
      case (Fields(entries), Key(k)) =>
        if k !in entries {
          return None;
        }
        assert entries[k] in Kids(n.content);
        n := entries[k];
      case _ =>
        return None;
    }
    return Some(n);
  }

  /** Applies one mutation to the caller's objects, if its subscripts make sense. */
  method ApplyChange(roots: seq<Node>, target: Handle, change: Change, ghost mine: set<Node>)
    requires Closed(mine) && forall n :: n in roots ==> n in mine
    modifies mine
    ensures Closed(mine)
  {
    var found := Follow(roots, target, mine);
    if found.None? {
      return;
    }
    var n := found.value;
    match (change, n.content)
    case (Overwrite(x), _) => n.content := Value(x);
    case (MakeList, _) => n.content := Items([]);
    case (MakeDict, _) => n.content := Fields(map[]);
    case (Append(h), Items(kids)) =>
      var item := Follow(roots, h, mine);
      if item.Some? {
        n.content := Items(kids + [item.value]);
      }
    case (SetField(k, h), Fields(entries)) =>
      var v := Follow(roots, h, mine);
      if v.Some? {
        var more := entries[k := v.value];
        assert forall l :: l in more ==> more[l] == v.value || (l in entries && more[l] == entries[l]);
        n.content := Fields(more);
      }
    case (DropField(k), Fields(entries)) => n.content := Fields(entries - {k});
    case _ =>
  }

  /** A mutation of the caller's objects while a cache is around. */
  method MutateBeside(cache: JsonCache, roots: seq<Node>, target: Handle, change: Change, ghost mine: set<Node>)
    requires cache.Valid() && mine !! cache.owned
    requires Closed(mine) && forall n :: n in roots ==> n in mine
    modifies mine
    ensures cache.Valid() && Closed(mine)
  {
    ApplyChange(roots, target, change, mine);
    cache.StillValid();
  }

  /** Runs a session on the real cache, with a caller that rewrites the objects it was given at will, shared and cyclic
      structures included. What the loads return is what the model says, so no mutation ever reaches the cache. */
  method Session(parse: Parser, disk: Disk, events: seq<Event>)
    returns (hits: nat, misses: nat, ghost log: seq<Result<Json, Error>>)
    ensures log == Run(parse, disk, events).1
    ensures hits == Run(parse, disk, events).0.hits && misses == Run(parse, disk, events).0.misses
  {
    var cache := new JsonCache(parse);
    var now := disk;
    var roots: seq<Node> := [];
    ghost var mine: set<Node> := {};
    log := [];
    for i := 0 to |events|
      invariant fresh(cache) && fresh(cache.owned) && fresh(mine) && cache.parse == parse
      invariant cache.Valid() && mine !! cache.owned && Closed(mine) && forall n :: n in roots ==> n in mine
      invariant now == DisksAfter(disk, events[..i])
      invariant Run(parse, disk, events[..i]) == (cache.State(), log)
    {
      assert events[..i + 1][..i] == events[..i];
      match events[i]
      case Load(path) =>
        var r, s := cache.Load(now, path);
        log := log + [Returned(r, s)];
        if r.Success? {
          DocumentClosed(s.value);
          assert r.value in Nodes(s.value);
          roots, mine := roots + [r.value], mine + Nodes(s.value);
        }
      case Write(path, file) => now := now.(files := now.files[path := file]);
      case Delete(path) => now := now.(files := now.files - {path});
      case Mutate(target, change) =>
        MutateBeside(cache, roots, target, change, mine);
    }
    assert events[..|events|] == events;
    return cache.hits, cache.misses, log;
  }

  /* ---- The tool's own negative control ---- */

  /** `document[key] = scalar` for a dictionary the cache does not own. */
  method SetKey(cache: JsonCache, document: Node, key: string, x: Scalar)
    requires cache.Valid() && document !in cache.owned && document.content.Fields?
    modifies document
    ensures cache.Valid()
    ensures document.content.Fields? && key in document.content.entries && document.content.entries[key].content == Value(x)
  {
    var v := new Node(Value(x));
    document.content := Fields(document.content.entries[key := v]);
    cache.StillValid();
  }

  function ScalarAt(j: Json, key: string): Option<Scalar> {
    if j.Obj? && key in j.fields && j.fields[key].Leaf? then Some(j.fields[key].scalar) else None
  }

  /** `document.get(key)`, for entries that are scalars. */
  method GetKey(document: Node, key: string, ghost s: Shape) returns (r: Option<Scalar>)
    requires Document(document, s)
    ensures Document(document, s) && r == ScalarAt(Tree(s), key)
  {
    match document.content
    case Fields(entries) =>
      if key !in entries {
        return None;
      }
      assert key in s.fields && Holds(s.fields[key]);
      match entries[key].content {
        case Value(x) => return Some(x);
        case _ => return None;
      }
    case _ => return None;
  }

  /** Loads a document and reads the two entries the control looks at. */
  method LoadEntries(cache: JsonCache, disk: Disk, path: string) returns (value: Option<Scalar>, changed: Option<Scalar>)
    requires cache.Valid() && LoadModel(cache.parse, cache.State(), disk, path).1.Success?
    modifies cache
    ensures cache.Valid() && cache.State() == LoadModel(cache.parse, old(cache.State()), disk, path).0
    ensures var j := LoadModel(cache.parse, old(cache.State()), disk, path).1.value;
            value == ScalarAt(j, "value") && changed == ScalarAt(j, "changed")
  {
    var r, s := cache.Load(disk, path);
    value := GetKey(r.value, "value", s.value);
    changed := GetKey(r.value, "changed", s.value);
  }

  /** Loads a dictionary and overwrites one of its entries. */
  method LoadAndSpoil(cache: JsonCache, disk: Disk, path: string) returns (spoiled: Node)
    requires cache.Valid() && LoadModel(cache.parse, cache.State(), disk, path).1.Success?
    requires LoadModel(cache.parse, cache.State(), disk, path).1.value.Obj?
    modifies cache
    ensures cache.Valid() && cache.State() == LoadModel(cache.parse, old(cache.State()), disk, path).0
    ensures spoiled.content.Fields? && "value" in spoiled.content.entries
            && spoiled.content.entries["value"].content == Value(Int(99))
  {
    var r, s := cache.Load(disk, path);
    assert Holds(s.value) && s.value.SObj?;
    SetKey(cache, r.value, "value", Int(99));
    return r.value;
  }

  /** The three loads of the control, on the model. */
  lemma ControlModel(parse: Parser, path: string, disk1: Disk, disk2: Disk, before: File, after: File, j1: Json, j2: Json)
    requires disk1.resolve(path) == disk2.resolve(path) == path
    requires disk1.files == map[path := before] && disk2.files == map[path := after]
    requires before.size != after.size && parse(before.text) == Some(j1) && parse(after.text) == Some(j2)
    ensures var m1 := Model(map[StampOf(path, before) := j1], 0, 1);
            var m3 := Model(map[StampOf(path, before) := j1, StampOf(path, after) := j2], 1, 2);
            && LoadModel(parse, Model(map[], 0, 0), disk1, path) == (m1, Success(j1))
            && LoadModel(parse, m1, disk1, path) == (m1.(hits := 1), Success(j1))
            && LoadModel(parse, m1.(hits := 1), disk2, path) == (m3, Success(j2))
  {
    assert map[][StampOf(path, before) := j1] == map[StampOf(path, before) := j1];
  }

  /** Load, spoil the returned dictionary, load again, rewrite the file, load a third time. The two texts the tool writes
      are 13 and 30 bytes long; their sizes differ, so the second one has a new key even when the clock has not moved. */
  method NegativeControl(parse: Parser, path: string, before: File, after: File)
    returns (isolated: bool, invalidated: bool, hits: nat, misses: nat)
    requires before.size != after.size && parse(before.text) == Some(Obj(map["value" := Leaf(Int(1))]))
    requires parse(after.text) == Some(Obj(map["value" := Leaf(Int(2)), "changed" := Leaf(Bool(true))]))
    ensures isolated && invalidated && hits == 1 && misses == 2
  {
    var cache := new JsonCache(parse);
    var disk1, disk2 := Disk(x => x, map[path := before]), Disk(x => x, map[path := after]);
    var j1, j2 := parse(before.text).value, parse(after.text).value;
    ControlModel(parse, path, disk1, disk2, before, after, j1, j2);
    assert ScalarAt(j1, "value") == Some(Int(1));
    assert ScalarAt(j2, "value") == Some(Int(2)) && ScalarAt(j2, "changed") == Some(Bool(true));
    ghost var m1 := Model(map[StampOf(path, before) := j1], 0, 1);
    assert cache.State() == Model(map[], 0, 0);
    var _ := LoadAndSpoil(cache, disk1, path);
    assert cache.State() == m1;
    var again, _ := LoadEntries(cache, disk1, path);
    assert cache.State() == m1.(hits := 1);
    var updated, changed := LoadEntries(cache, disk2, path);
    return again == Some(Int(1)), updated == Some(Int(2)) && changed == Some(Bool(true)), cache.hits, cache.misses;
  }
}
