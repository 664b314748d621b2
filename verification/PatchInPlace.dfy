/** The patch loop as it runs: one list or dictionary of the document is edited in place per operation. */
module PatchInPlace {
  import opened Wrappers
  import opened JsonValue
  import opened JsonHeap
  import JsonPointer
  import JsonPatch
  import Subscripts

  /** A patch operation whose value is a live object. */
  datatype Operation = Operation(op: Option<string>, path: string, value: Node)

  /* ---- Laid-out documents, step by step ---- */

  ghost predicate HasPart(s: Shape, step: Step): (r: bool)
    ensures r == HasStep(Tree(s), step)
  {
    match s
    case SLeaf(_, _) => false
    case SArr(_, items) => step.Index? && step.i < |items|
    case SObj(_, fields) => step.Key? && step.k in fields
  }

  ghost function Part(s: Shape, step: Step): (p: Shape)
    requires HasPart(s, step)
    ensures p < s && Nodes(p) <= Nodes(s) && (Distinct(s) ==> Distinct(p) && s.node !in Nodes(p))
    ensures HasStep(Tree(s), step) && Tree(p) == Child(Tree(s), step)
  {
    match s
    case SArr(_, items) => items[step.i]
    case SObj(_, fields) => fields[step.k]
  }

  ghost function WithPart(s: Shape, step: Step, p: Shape): (r: Shape)
    requires HasPart(s, step)
    ensures r.node == s.node && Tree(r) == WithChild(Tree(s), step, Tree(p))
    ensures Nodes(r) <= Nodes(s) + Nodes(p)
  {
    match s
    case SArr(n, items) =>
      var r := SArr(n, items[step.i := p]);
      assert Tree(r).items == Tree(s).items[step.i := Tree(p)];
      r
    case SObj(n, fields) =>
      var r := SObj(n, fields[step.k := p]);
      assert Tree(r).fields == Tree(s).fields[step.k := Tree(p)];
      r
  }

  /** A part may be exchanged for one made of its own objects and new ones. */
  lemma WithPartDistinct(s: Shape, step: Step, p: Shape, extra: set<Node>)
    requires HasPart(s, step) && Distinct(s) && Distinct(p)
    requires Nodes(p) <= Nodes(Part(s, step)) + extra && extra !! Nodes(s)
    ensures Distinct(WithPart(s, step, p))
  {
    match s
    case SArr(n, items) =>
      forall i | 0 <= i < |items| ensures Nodes(items[i]) <= Nodes(s) { assert HasPart(s, Index(i)) && Part(s, Index(i)) == items[i]; }
    case SObj(n, fields) =>
      forall k | k in fields ensures Nodes(fields[k]) <= Nodes(s) { assert HasPart(s, Key(k)) && Part(s, Key(k)) == fields[k]; }
  }

  /** Exchanging a part for one with the same root object changes no other object. */
  twostate lemma WithPartHolds(s: Shape, new step: Step, new p: Shape)
    requires HasPart(s, step) && Distinct(s) && old(Holds(s))
    requires p.node == Part(s, step).node && Holds(p)
    requires forall n :: n in Nodes(s) && old(allocated(n)) && n !in Nodes(Part(s, step)) ==> n.content == old(n.content)
    ensures Holds(WithPart(s, step, p))
  {
    match s
    case SArr(_, items) => WithItemHolds(s, step.i, p);
    case SObj(_, fields) => WithFieldHolds(s, step.k, p);
  }

  twostate lemma WithItemHolds(s: Shape, new j: nat, new p: Shape)
    requires s.SArr? && j < |s.items| && Distinct(s) && old(Holds(s))
    requires p.node == s.items[j].node && Holds(p)
    requires forall n :: n in Nodes(s) && old(allocated(n)) && n !in Nodes(s.items[j]) ==> n.content == old(n.content)
    ensures Holds(WithPart(s, Index(j), p))
  {
    assert Own(WithPart(s, Index(j), p)).kids == Own(s).kids;
    forall i | 0 <= i < |s.items| && i != j ensures Holds(s.items[i]) {
      assert Part(s, Index(i)) == s.items[i] && Nodes(s.items[i]) !! Nodes(s.items[j]);
      HoldsFrame(s.items[i]);
    }
  }

  twostate lemma WithFieldHolds(s: Shape, new l: string, new p: Shape)
    requires s.SObj? && l in s.fields && Distinct(s) && old(Holds(s))
    requires p.node == s.fields[l].node && Holds(p)
    requires forall n :: n in Nodes(s) && old(allocated(n)) && n !in Nodes(s.fields[l]) ==> n.content == old(n.content)
    ensures Holds(WithPart(s, Key(l), p))
  {
    assert Own(WithPart(s, Key(l), p)).entries == Own(s).entries;
    forall k | k in s.fields && k != l ensures Holds(s.fields[k]) {
      assert Part(s, Key(k)) == s.fields[k];
      HoldsFrame(s.fields[k]);
    }
  }

  /* ---- ... and along a location ---- */

  ghost function PartAt(s: Shape, loc: Loc): (p: Shape)
    requires Exists(Tree(s), loc)
    ensures Nodes(p) <= Nodes(s) && (Distinct(s) ==> Distinct(p)) && Tree(p) == At(Tree(s), loc)
  {
    if loc == [] then s else PartAt(Part(s, loc[0]), loc[1..])
  }

  ghost function PutPart(s: Shape, loc: Loc, p: Shape): (r: Shape)
    requires Exists(Tree(s), loc)
    ensures Tree(r) == Put(Tree(s), loc, Tree(p)) && Nodes(r) <= Nodes(s) + Nodes(p)
    ensures p.node == PartAt(s, loc).node ==> r.node == s.node
  {
    if loc == [] then p
    else
      WithPart(s, loc[0], PutPart(Part(s, loc[0]), loc[1..], p))
  }

  lemma {:induction false} PutPartDistinct(s: Shape, loc: Loc, p: Shape, extra: set<Node>)
    requires Exists(Tree(s), loc) && Distinct(s) && Distinct(p)
    requires Nodes(p) <= Nodes(PartAt(s, loc)) + extra && extra !! Nodes(s)
    ensures Distinct(PutPart(s, loc, p)) && Nodes(PutPart(s, loc, p)) <= Nodes(s) + extra
    decreases |loc|
  {
    if loc == [] {
    } else {
      var part := Part(s, loc[0]);
      PutPartDistinct(part, loc[1..], p, extra);
      WithPartDistinct(s, loc[0], PutPart(part, loc[1..], p), extra);
    }
  }

  /** Writing one object deep inside a document leaves the rest of it laid out as before. */
  twostate lemma {:induction false} PutPartHolds(s: Shape, new loc: Loc, new p: Shape)
    requires Exists(Tree(s), loc) && Distinct(s) && old(Holds(s))
    requires p.node == PartAt(s, loc).node && Holds(p)
    requires forall n :: n in Nodes(s) && old(allocated(n)) && n != p.node ==> n.content == old(n.content)
    ensures Holds(PutPart(s, loc, p))
    decreases |loc|
  {
    if loc == [] {
    } else {
      PutPartHolds(Part(s, loc[0]), loc[1..], p);
      WithPartHolds(s, loc[0], PutPart(Part(s, loc[0]), loc[1..], p));
    }
  }

  lemma {:induction false} PartAtHolds(s: Shape, loc: Loc)
    requires Exists(Tree(s), loc) && Holds(s)
    ensures Holds(PartAt(s, loc))
    decreases |loc|
  {
    if loc == [] {
    } else {
      PartAtHolds(Part(s, loc[0]), loc[1..]);
    }
  }

  /* ---- patch_parent ---- */

  lemma {:induction false} PartAtSnoc(s: Shape, loc: Loc, step: Step)
    requires Exists(Tree(s), loc) && HasPart(PartAt(s, loc), step)
    ensures Exists(Tree(s), loc + [step]) && PartAt(s, loc + [step]) == Part(PartAt(s, loc), step)
    decreases |loc|
  {
    if loc == [] {
    } else {
      PartAtSnoc(Part(s, loc[0]), loc[1..], step);
      assert (loc + [step])[1..] == loc[1..] + [step];
    }
  }

  ghost function From(loc: Loc, r: Result<Loc, JsonPatch.Error>): Result<Loc, JsonPatch.Error> {
    match r
    case Success(rest) => Success(loc + rest)
    case Failure(e) => Failure(e)
  }

  lemma WalkUnfold(j: Json, step: Step, tokens: seq<string>)
    requires tokens != [] && JsonPatch.Enter(j, tokens[0]) == Success(step)
    ensures JsonPatch.Walk(j, tokens) == From([step], JsonPatch.Walk(Child(j, step), tokens[1..]))
  {
  }

  lemma FromFrom(a: Loc, b: Loc, r: Result<Loc, JsonPatch.Error>)
    ensures From(a, From(b, r)) == From(a + b, r)
  {
    if r.Success? {
      assert a + (b + r.value) == (a + b) + r.value;
    }
  }

  /** One subscript into a live container. */
  method Enter(n: Node, token: string, ghost s: Shape) returns (r: Result<(Step, Node), JsonPatch.Error>)
    requires Document(n, s)
    ensures r.Success? ==> HasPart(s, r.value.0) && r.value.1 == Part(s, r.value.0).node
    ensures Document(n, s)
    ensures JsonPatch.Enter(Tree(s), token) == (match r case Success(x) => Success(x.0) case Failure(e) => Failure(e))
  {
    match n.content
    case Value(_) => return Failure(JsonPatch.TraversesScalar);
    case Items(kids) =>
      var index := Subscripts.ParseInt(token);
      if index.None? {
        return Failure(JsonPatch.BadIndex);
      }
      var p := JsonPatch.Position(index.value, |kids|);
      if p.None? {
        return Failure(JsonPatch.IndexOutOfRange);
      }
      return Success((Index(p.value), kids[p.value]));
    case Fields(entries) =>
      if token !in entries {
        return Failure(JsonPatch.MissingKey);
      }
      return Success((Key(token), entries[token]));
  }

  method PatchParent(document: Node, tokens: seq<string>, ghost s: Shape)
    returns (r: Result<Node, JsonPatch.Error>, ghost loc: Loc)
    requires Document(document, s)
    ensures Document(document, s)
    ensures r.Success? <==> JsonPatch.Walk(Tree(s), tokens).Success?
    ensures r.Success? ==> loc == JsonPatch.Walk(Tree(s), tokens).value && r.value == PartAt(s, loc).node
    ensures r.Failure? ==> JsonPatch.Walk(Tree(s), tokens) == Failure(r.error)
  {
    var current := document;
    loc := [];
    assert tokens[0..] == tokens && forall rest: Loc :: [] + rest == rest;
    for i := 0 to |tokens|
      invariant Document(document, s) && Exists(Tree(s), loc) && current == PartAt(s, loc).node
      invariant JsonPatch.Walk(Tree(s), tokens) == From(loc, JsonPatch.Walk(At(Tree(s), loc), tokens[i..]))
    {
      PartAtHolds(s, loc);
      var next := Enter(current, tokens[i], PartAt(s, loc));
      HoldsFrame(s);
      if next.Failure? {
        return Failure(next.error), loc;
      }
      var (step, node) := next.value;
      PartAtSnoc(s, loc, step);
      WalkUnfold(At(Tree(s), loc), step, tokens[i..]);
      FromFrom(loc, [step], JsonPatch.Walk(Child(At(Tree(s), loc), step), tokens[i..][1..]));
      assert tokens[i..][1..] == tokens[i + 1..];
      loc, current := loc + [step], node;
    }
    return Success(current), loc;
  }

  /* ---- The edit of one container ---- */

  function Each<A, B>(f: A -> B, s: seq<A>): seq<B> {
    seq(|s|, i requires 0 <= i < |s| => f(s[i]))
  }

  function EachValue<A, B>(f: A -> B, m: map<string, A>): map<string, B> {
    map k | k in m :: f(m[k])
  }

  /** List edits do not look at the elements, so they commute with any rewriting of them. */
  lemma EditListNatural<A, B>(f: A -> B, items: seq<A>, key: string, op: Option<string>, v: A)
    ensures JsonPatch.EditList(Each(f, items), key, op, f(v))
            == match JsonPatch.EditList(items, key, op, v) case Success(r) => Success(Each(f, r)) case Failure(e) => Failure(e)
  {
    var b := Each(f, items);
    if JsonPatch.EditList(items, key, op, v).Success? {
      var index := Subscripts.ParseInt(key).value;
      if op == Some("add") {
        var p := JsonPatch.InsertPosition(index, |items|);
        assert b[..p] + [f(v)] + b[p..] == Each(f, items[..p] + [v] + items[p..]);
      } else {
        var p := JsonPatch.Position(index, |items|).value;
        if op == Some("replace") {
          assert b[p := f(v)] == Each(f, items[p := v]);
        } else {
          assert b[..p] + b[p + 1..] == Each(f, items[..p] + items[p + 1..]);
        }
      }
    }
  }

  lemma EditDictNatural<A, B>(f: A -> B, fields: map<string, A>, key: string, op: Option<string>, v: A)
    ensures JsonPatch.EditDict(EachValue(f, fields), key, op, f(v))
            == match JsonPatch.EditDict(fields, key, op, v) case Success(r) => Success(EachValue(f, r)) case Failure(e) => Failure(e)
  {
    assert EachValue(f, fields)[key := f(v)] == EachValue(f, fields[key := v]);
    assert EachValue(f, fields) - {key} == EachValue(f, fields - {key});
  }

  /** The container's layout after an operation. */
  ghost function Edited(t: Shape, key: string, op: Option<string>, v: Shape): Result<Shape, JsonPatch.Error> {
    match t
    case SLeaf(_, _) => Failure(JsonPatch.ScalarParent)
    case SArr(n, items) =>
      (match JsonPatch.EditList(items, key, op, v) case Success(r) => Success(SArr(n, r)) case Failure(e) => Failure(e))
    case SObj(n, fields) =>
      (match JsonPatch.EditDict(fields, key, op, v) case Success(r) => Success(SObj(n, r)) case Failure(e) => Failure(e))
  }

  /** The edited layout describes the edited document. */
  lemma EditedTree(t: Shape, key: string, op: Option<string>, v: Shape)
    ensures JsonPatch.Edit(Tree(t), key, op, Tree(v))
            == match Edited(t, key, op, v) case Success(r) => Success(Tree(r)) case Failure(e) => Failure(e)
  {
    match t
    case SLeaf(_, _) =>
    case SArr(n, items) =>
      EditListNatural(x => Tree(x), items, key, op, v);
      assert Tree(t).items == Each(x => Tree(x), items);
      if Edited(t, key, op, v).Success? {
        assert Tree(Edited(t, key, op, v).value).items == Each(x => Tree(x), Edited(t, key, op, v).value.items);
      }
    case SObj(n, fields) =>
      EditDictNatural(x => Tree(x), fields, key, op, v);
      assert Tree(t).fields == EachValue(x => Tree(x), fields);
      if Edited(t, key, op, v).Success? {
        assert Tree(Edited(t, key, op, v).value).fields == EachValue(x => Tree(x), Edited(t, key, op, v).value.fields);
      }
  }

  /** Documents side by side that share nothing, each within `all`. */
  ghost predicate Separate(items: seq<Shape>, all: set<Node>) {
    && (forall i :: 0 <= i < |items| ==> Distinct(items[i]) && Nodes(items[i]) <= all)
    && (forall i, j :: 0 <= i < j < |items| ==> Nodes(items[i]) !! Nodes(items[j]))
  }

  lemma EditListSeparate(items: seq<Shape>, all: set<Node>, key: string, op: Option<string>, v: Shape)
    requires Separate(items, all) && Distinct(v) && Nodes(v) !! all
    requires JsonPatch.EditList(items, key, op, v).Success?
    ensures Separate(JsonPatch.EditList(items, key, op, v).value, all + Nodes(v))
  {
    var index := Subscripts.ParseInt(key).value;
    if op == Some("add") {
      InsertSeparate(items, all, JsonPatch.InsertPosition(index, |items|), v);
    }
  }

  lemma InsertSeparate(items: seq<Shape>, all: set<Node>, p: nat, v: Shape)
    requires Separate(items, all) && Distinct(v) && Nodes(v) !! all && p <= |items|
    ensures Separate(items[..p] + [v] + items[p..], all + Nodes(v))
  {
  }

  /** Inserting or assigning a value from outside keeps the container a tree. */
  lemma EditedDistinct(t: Shape, key: string, op: Option<string>, v: Shape)
    requires Edited(t, key, op, v).Success? && Distinct(t) && Distinct(v) && Nodes(t) !! Nodes(v)
    ensures var r := Edited(t, key, op, v).value;
            Distinct(r) && r.node == t.node && Nodes(r) <= Nodes(t) + Nodes(v)
  {
    PartsInside(t);
    match t
    case SArr(n, items) =>
      var all := Nodes(t) - {n};
      assert Separate(items, all);
      EditListSeparate(items, all, key, op, v);
      assert Separate(Edited(t, key, op, v).value.items, all + Nodes(v));
    case SObj(n, fields) =>
      var r := Edited(t, key, op, v).value;
      assert forall k :: k in r.fields ==> r.fields[k] == v || (k in fields && r.fields[k] == fields[k]);
  }

  lemma PartsInside(t: Shape)
    ensures t.SArr? ==> forall i :: 0 <= i < |t.items| ==> Nodes(t.items[i]) <= Nodes(t)
    ensures t.SObj? ==> forall k :: k in t.fields ==> Nodes(t.fields[k]) <= Nodes(t)
  {
  }

  lemma EditListElements<T>(items: seq<T>, key: string, op: Option<string>, v: T)
    requires JsonPatch.EditList(items, key, op, v).Success?
    ensures forall x :: x in JsonPatch.EditList(items, key, op, v).value ==> x == v || x in items
  {
  }

  /** Once the container object stores its new content, the edited layout holds. */
  twostate lemma EditedHolds(t: Shape, new key: string, new op: Option<string>, new v: Shape)
    requires Edited(t, key, op, v).Success? && Distinct(t) && old(Holds(t)) && Holds(v)
    requires forall n :: n in Nodes(t) && old(allocated(n)) && n != t.node ==> n.content == old(n.content)
    requires t.node.content == Own(Edited(t, key, op, v).value)
    ensures Holds(Edited(t, key, op, v).value)
  {
    PartsInside(t);
    match t
    case SArr(_, items) =>
      forall i | 0 <= i < |items| ensures Holds(items[i]) { HoldsFrame(items[i]); }
      EditListElements(items, key, op, v);
      var r := Edited(t, key, op, v).value;
      forall i | 0 <= i < |r.items| ensures Holds(r.items[i]) { assert r.items[i] in r.items; }
    case SObj(_, fields) =>
      forall k | k in fields ensures Holds(fields[k]) { HoldsFrame(fields[k]); }
  }

  /** The content the container object must store afterwards. */
  lemma EditedOwn(t: Shape, key: string, op: Option<string>, v: Shape)
    ensures t.SArr? ==> (JsonPatch.EditList(Own(t).kids, key, op, v.node)
              == match Edited(t, key, op, v) case Success(r) => Success(Own(r).kids) case Failure(e) => Failure(e))
    ensures t.SObj? ==> (JsonPatch.EditDict(Own(t).entries, key, op, v.node)
              == match Edited(t, key, op, v) case Success(r) => Success(Own(r).entries) case Failure(e) => Failure(e))
  {
    var node := (x: Shape) => x.node;
    match t
    case SLeaf(_, _) =>
    case SArr(n, items) =>
      EditListNatural(node, items, key, op, v);
      assert Own(t).kids == Each(node, items);
      if Edited(t, key, op, v).Success? {
        assert Own(Edited(t, key, op, v).value).kids == Each(node, Edited(t, key, op, v).value.items);
      }
    case SObj(n, fields) =>
      EditDictNatural(node, fields, key, op, v);
      assert Own(t).entries == EachValue(node, fields);
      if Edited(t, key, op, v).Success? {
        assert Own(Edited(t, key, op, v).value).entries == EachValue(node, Edited(t, key, op, v).value.fields);
      }
  }

  /** Rewrites the container object itself, as list and dictionary methods do. */
  method EditInPlace(n: Node, key: string, op: Option<string>, value: Node, ghost t: Shape, ghost v: Shape)
    returns (error: Option<JsonPatch.Error>)
    requires Document(n, t) && Document(value, v) && Nodes(t) !! Nodes(v)
    modifies n
    ensures match Edited(t, key, op, v)
            case Success(r) => error.None? && n.content == Own(r)
            case Failure(e) => error == Some(e) && n.content == old(n.content)
  {
    EditedOwn(t, key, op, v);
    match n.content
    case Value(_) => return Some(JsonPatch.ScalarParent);
    case Items(kids) =>
      var r := JsonPatch.EditList(kids, key, op, value);
      if r.Failure? {
        return Some(r.error);
      }
      n.content := Items(r.value);
      return None;
    case Fields(entries) =>
      var r := JsonPatch.EditDict(entries, key, op, value);
      if r.Failure? {
        return Some(r.error);
      }
      n.content := Fields(r.value);
      return None;
  }

  /* ---- The whole patch ---- */

  ghost function Plain(o: Operation, v: Shape): JsonPatch.Operation {
    JsonPatch.Operation(o.op, o.path, Tree(v))
  }

  ghost predicate AllHold(shapes: seq<Shape>)
    reads set i, n | 0 <= i < |shapes| && n in Nodes(shapes[i]) :: n
  {
    forall i :: 0 <= i < |shapes| ==> Holds(shapes[i])
  }

  ghost predicate Apart(shapes: seq<Shape>, nodes: set<Node>) {
    forall i :: 0 <= i < |shapes| ==> Nodes(shapes[i]) !! nodes
  }

  /** The edit of the container at `loc`, seen from the whole document. */
  method EditAt(n: Node, key: string, o: Operation, ghost s: Shape, ghost loc: Loc, ghost v: Shape, ghost others: seq<Shape>)
    returns (error: Option<JsonPatch.Error>, ghost s': Shape)
    requires Distinct(s) && Holds(s) && Exists(Tree(s), loc) && n == PartAt(s, loc).node
    requires Document(o.value, v) && Nodes(s) !! Nodes(v)
    requires AllHold(others) && Apart(others, Nodes(s))
    modifies Nodes(s)
    ensures s'.node == s.node && Distinct(s') && Holds(s') && Nodes(s') <= Nodes(s) + Nodes(v)
    ensures match JsonPatch.Edit(At(Tree(s), loc), key, o.op, Tree(v))
            case Success(edited) => error.None? && Tree(s') == Put(Tree(s), loc, edited)
            case Failure(e) => error == Some(e) && s' == s
    ensures AllHold(others)
  {
    ghost var t := PartAt(s, loc);
    PartAtHolds(s, loc);
    EditedTree(t, key, o.op, v);
    error := EditInPlace(n, key, o.op, o.value, t, v);
    forall i | 0 <= i < |others| ensures Holds(others[i]) {
      HoldsFrame(others[i]);
    }
    if error.Some? {
      HoldsFrame(s);
      return error, s;
    }
    HoldsFrame(v);
    EditedHolds(t, key, o.op, v);
    EditedDistinct(t, key, o.op, v);
    ghost var r := Edited(t, key, o.op, v).value;
    PutPartHolds(s, loc, r);
    PutPartDistinct(s, loc, r, Nodes(v));
    s' := PutPart(s, loc, r);
  }

  /** One operation on the live document; the values of later operations stay as they are. */
  method ApplyOperation(document: Node, o: Operation, ghost s: Shape, ghost v: Shape, ghost others: seq<Shape>)
    returns (error: Option<JsonPatch.Error>, ghost s': Shape)
    requires Document(document, s) && Document(o.value, v) && Nodes(s) !! Nodes(v)
    requires AllHold(others) && Apart(others, Nodes(s))
    modifies Nodes(s)
    ensures Document(document, s') && Nodes(s') <= Nodes(s) + Nodes(v)
    ensures match JsonPatch.ApplyOne(Tree(s), Plain(o, v))
            case Success(j) => error.None? && Tree(s') == j
            case Failure(e) => error == Some(e) && s' == s
    ensures AllHold(others)
  {
    var tokens := JsonPointer.PointerTokens(o.path);
    if tokens.Failure? {
      return Some(JsonPatch.NotAPointer), s;
    }
    if tokens.value == [] {
      return Some(JsonPatch.RootOperation), s;
    }
    var last := |tokens.value| - 1;
    var parent, loc := PatchParent(document, tokens.value[..last], s);
    HoldsFrame(v);
    forall i | 0 <= i < |others| ensures Holds(others[i]) {
      HoldsFrame(others[i]);
    }
    if parent.Failure? {
      return Some(parent.error), s;
    }
    error, s' := EditAt(parent.value, tokens.value[last], o, s, loc, v, others);
  }

  /** The operations as values. */
  ghost function PlainAll(ops: seq<Operation>, values: seq<Shape>): seq<JsonPatch.Operation>
    requires |ops| == |values|
  {
    seq(|ops|, i requires 0 <= i < |ops| => Plain(ops[i], values[i]))
  }

  /** The values are trees of their own within `all`, apart from the document and from each other. */
  ghost predicate Unshared(s: Shape, values: seq<Shape>, all: set<Node>) {
    && Nodes(s) <= all && Apart(values, Nodes(s))
    && (forall i :: 0 <= i < |values| ==> Nodes(values[i]) <= all)
    && (forall i, j :: 0 <= i < j < |values| ==> Nodes(values[i]) !! Nodes(values[j]))
  }

  lemma ApartFromNext(values: seq<Shape>, i: nat, used: set<Node>, s: Shape, all: set<Node>)
    requires i < |values| && Unshared(s, values, all) && Apart(values[i..], used)
    ensures Nodes(values[i]) !! used && Apart(values[i + 1..], used + Nodes(values[i])) && Nodes(values[i]) <= all
  {
    assert values[i..][0] == values[i];
    var later := values[i + 1..];
    forall k | 0 <= k < |later| ensures Nodes(later[k]) !! used + Nodes(values[i]) {
      assert later[k] == values[i..][k + 1] == values[i + 1 + k];
    }
  }

  /** One operation of a patch, in the middle of it. */
  method ApplyNext(document: Node, o: Operation, ghost now: Shape, ghost ahead: seq<Shape>)
    returns (error: Option<JsonPatch.Error>, ghost next: Shape)
    requires Document(document, now) && ahead != [] && Document(o.value, ahead[0])
    requires AllHold(ahead) && Apart(ahead, Nodes(now))
    modifies Nodes(now)
    ensures Document(document, next) && Nodes(next) <= Nodes(now) + Nodes(ahead[0])
    ensures AllHold(ahead[1..])
    ensures match JsonPatch.ApplyOne(Tree(now), Plain(o, ahead[0]))
            case Success(j) => error.None? && Tree(next) == j
            case Failure(e) => error == Some(e) && next == now
  {
    assert forall i :: 0 <= i < |ahead[1..]| ==> ahead[1..][i] == ahead[i + 1];
    error, next := ApplyOperation(document, o, now, ahead[0], ahead[1..]);
  }

  /** Applies a patch in place. The document ends up exactly as the operations on values say, including the operations
      already applied when one of them raises; inserted values become part of the document without being copied. */
  method ApplyPatchOperations(document: Node, operations: seq<Operation>,
                              ghost s: Shape, ghost values: seq<Shape>, ghost all: set<Node>)
    returns (error: Option<JsonPatch.Error>, ghost s': Shape)
    requires Document(document, s) && |values| == |operations| && Unshared(s, values, all)
    requires forall i :: 0 <= i < |values| ==> Document(operations[i].value, values[i])
    modifies all
    ensures Document(document, s') && Nodes(s') <= all
    ensures (Tree(s'), error) == JsonPatch.ApplyAll(Tree(s), PlainAll(operations, values))
  {
    ghost var plain, used := PlainAll(operations, values), Nodes(s);
    s' := s;
    assert plain[0..] == plain && values[0..] == values;
    for i := 0 to |operations|
      invariant Document(document, s') && Nodes(s') <= used <= all && Apart(values[i..], used)
      invariant AllHold(values[i..])
      invariant JsonPatch.ApplyAll(Tree(s), plain) == JsonPatch.ApplyAll(Tree(s'), plain[i..])
    {
      ApartFromNext(values, i, used, s, all);
      ghost var ahead := values[i..];
      assert Holds(ahead[0]) && ahead[1..] == values[i + 1..];
      assert plain[i..][0] == Plain(operations[i], values[i]) && plain[i..][1..] == plain[i + 1..];
      error, s' := ApplyNext(document, operations[i], s', ahead);
      used := used + Nodes(values[i]);
      if error.Some? {
        return error, s';
      }
    }
    error := None;
  }
}
