/** JSON documents as the mutable lists and dictionaries a parser returns. */
module JsonHeap {
  import opened JsonValue

  class Node {
    var content: Content

    constructor (c: Content)
      ensures content == c
    {
      content := c;
    }
  }

  datatype Content = Value(scalar: Scalar) | Items(kids: seq<Node>) | Fields(entries: map<string, Node>)

  /** A record of which object sits where in a document. */
  datatype Shape =
    | SLeaf(node: Node, scalar: Scalar)
    | SArr(node: Node, items: seq<Shape>)
    | SObj(node: Node, fields: map<string, Shape>)

  ghost function Tree(s: Shape): Json {
    match s
    case SLeaf(_, x) => Leaf(x)
    case SArr(_, items) => Arr(seq(|items|, i requires 0 <= i < |items| => Tree(items[i])))
    case SObj(_, fields) => Obj(map k | k in fields :: Tree(fields[k]))
  }

  ghost function Nodes(s: Shape): set<Node> {
    match s
    case SLeaf(n, _) => {n}
    case SArr(n, items) => {n} + set i, x | 0 <= i < |items| && x in Nodes(items[i]) :: x
    case SObj(n, fields) => {n} + set k, x | k in fields && x in Nodes(fields[k]) :: x
  }

  /** No object occurs twice: the document is a tree in memory. */
  ghost predicate Distinct(s: Shape) {
    match s
    case SLeaf(_, _) => true
    case SArr(n, items) =>
      && (forall i :: 0 <= i < |items| ==> Distinct(items[i]) && n !in Nodes(items[i]))
      && (forall i, j :: 0 <= i < j < |items| ==> Nodes(items[i]) !! Nodes(items[j]))
    case SObj(n, fields) =>
      && (forall k :: k in fields ==> Distinct(fields[k]) && n !in Nodes(fields[k]))
      && (forall k, l :: k in fields && l in fields && k != l ==> Nodes(fields[k]) !! Nodes(fields[l]))
  }

  /** What the root object of a shape stores. */
  ghost function Own(s: Shape): Content {
    match s
    case SLeaf(_, x) => Value(x)
    case SArr(_, items) => Items(seq(|items|, i requires 0 <= i < |items| => items[i].node))
    case SObj(_, fields) => Fields(map k | k in fields :: fields[k].node)
  }

  /** The objects really store what the shape says. */
  ghost predicate Holds(s: Shape)
    reads Nodes(s)
  {
    && s.node.content == Own(s)
    && match s
       case SLeaf(_, _) => true
       case SArr(_, items) => forall i :: 0 <= i < |items| ==> Holds(items[i])
       case SObj(_, fields) => forall k :: k in fields ==> Holds(fields[k])
  }

  /** `n` is the root of a document laid out in memory as `s`. */
  ghost predicate Document(n: Node, s: Shape)
    reads Nodes(s)
  {
    s.node == n && Distinct(s) && Holds(s)
  }

  /** A layout survives whatever happens outside its own objects. */
  twostate lemma HoldsFrame(s: Shape)
    requires old(Holds(s))
    requires forall o :: o in Nodes(s) && old(allocated(o)) ==> o.content == old(o.content)
    ensures Holds(s)
  {
    match s
    case SLeaf(_, _) =>
    case SArr(_, items) =>
      forall i | 0 <= i < |items| ensures Holds(items[i]) {
        HoldsFrame(items[i]);
      }
    case SObj(_, fields) =>
      forall k | k in fields ensures Holds(fields[k]) {
        HoldsFrame(fields[k]);
      }
  }

  /** A run of separate documents, all inside `all`. */
  ghost predicate DocumentList(kids: seq<Node>, shapes: seq<Shape>, all: set<Node>)
    reads all
  {
    && |kids| == |shapes|
    && (forall i :: 0 <= i < |shapes| ==> Nodes(shapes[i]) <= all && Document(kids[i], shapes[i]))
    && (forall i, j :: 0 <= i < j < |shapes| ==> Nodes(shapes[i]) !! Nodes(shapes[j]))
  }

  /** A dictionary of separate documents, all inside `all`. */
  ghost predicate DocumentMap(kids: map<string, Node>, shapes: map<string, Shape>, all: set<Node>)
    reads all
  {
    && kids.Keys == shapes.Keys
    && (forall k :: k in shapes ==> Nodes(shapes[k]) <= all && Document(kids[k], shapes[k]))
    && (forall k, l :: k in shapes && l in shapes && k != l ==> Nodes(shapes[k]) !! Nodes(shapes[l]))
  }

  lemma MapDocument(n: Node, kids: map<string, Node>, shapes: map<string, Shape>, all: set<Node>)
    requires DocumentMap(kids, shapes, all) && n !in all && n.content == Fields(kids)
    ensures Document(n, SObj(n, shapes))
  {
  }

  lemma MapGrows(kids: map<string, Node>, shapes: map<string, Shape>, all: set<Node>, k: string, kid: Node, shape: Shape)
    requires DocumentMap(kids, shapes, all) && Document(kid, shape) && Nodes(shape) !! all && k !in shapes
    ensures DocumentMap(kids[k := kid], shapes[k := shape], all + Nodes(shape))
  {
  }

  /** Lays out a parsed document in fresh objects, as `json.load` does. */
  method Build(j: Json) returns (n: Node, ghost s: Shape)
    ensures Document(n, s) && Tree(s) == j && fresh(Nodes(s))
    decreases j, 1
  {
    match j
    case Leaf(x) =>
      n := new Node(Value(x));
      s := SLeaf(n, x);
    case Arr(_) =>
      var kids, shapes, all := BuildItems(j);
      n := new Node(Items(kids));
      s := SArr(n, shapes);
    case Obj(_) =>
      var kids, shapes, all := BuildFields(j);
      n := new Node(Fields(kids));
      MapDocument(n, kids, shapes, all);
      s := SObj(n, shapes);
  }

  method BuildItems(j: Json) returns (kids: seq<Node>, ghost shapes: seq<Shape>, ghost all: set<Node>)
    requires j.Arr?
    ensures DocumentList(kids, shapes, all) && fresh(all)
    ensures |shapes| == |j.items| && forall i :: 0 <= i < |shapes| ==> Tree(shapes[i]) == j.items[i]
    decreases j, 0
  {
    kids, shapes, all := [], [], {};
    for i := 0 to |j.items|
      invariant |shapes| == i && fresh(all) && DocumentList(kids, shapes, all)
      invariant forall l :: 0 <= l < i ==> Tree(shapes[l]) == j.items[l]
    {
      var kid, shape := Build(j.items[i]);
      kids, shapes, all := kids + [kid], shapes + [shape], all + Nodes(shape);
    }
  }

  method BuildFields(j: Json) returns (kids: map<string, Node>, ghost shapes: map<string, Shape>, ghost all: set<Node>)
    requires j.Obj?
    ensures DocumentMap(kids, shapes, all) && fresh(all)
    ensures shapes.Keys == j.fields.Keys && forall k :: k in shapes ==> Tree(shapes[k]) == j.fields[k]
    decreases j, 0
  {
    kids, shapes, all := map[], map[], {};
    var keys := j.fields.Keys;
    while keys != {}
      invariant keys <= j.fields.Keys && shapes.Keys == j.fields.Keys - keys
      invariant fresh(all) && DocumentMap(kids, shapes, all)
      invariant forall k :: k in shapes ==> Tree(shapes[k]) == j.fields[k]
      decreases keys
    {
      var k :| k in keys;
      var kid, shape := Build(j.fields[k]);
      MapGrows(kids, shapes, all, k, kid, shape);
      kids, shapes, all := kids[k := kid], shapes[k := shape], all + Nodes(shape);
      keys := keys - {k};
    }
  }

  /** `copy.deepcopy` of a document without shared parts: an equal document made of fresh objects only. */
  method DeepCopy(n: Node, ghost s: Shape) returns (n': Node, ghost s': Shape)
    requires Document(n, s)
    ensures Document(n', s') && Tree(s') == Tree(s) && fresh(Nodes(s'))
    decreases s, 2
  {
    match n.content
    case Value(x) =>
      n' := new Node(Value(x));
      s' := SLeaf(n', x);
    case Items(_) =>
      n', s' := CopyList(n, s);
    case Fields(_) =>
      n', s' := CopyDict(n, s);
  }

  method CopyList(n: Node, ghost s: Shape) returns (n': Node, ghost s': Shape)
    requires Document(n, s) && s.SArr?
    ensures Document(n', s') && Tree(s') == Tree(s) && fresh(Nodes(s'))
    decreases s, 1
  {
    var kids, shapes, all := CopyItems(n, s);
    n' := new Node(Items(kids));
    s' := SArr(n', shapes);
  }

  lemma SameEntries(n: Node, shapes: map<string, Shape>, s: Shape)
    requires s.SObj? && shapes.Keys == s.fields.Keys && forall k :: k in shapes ==> Tree(shapes[k]) == Tree(s.fields[k])
    ensures Tree(SObj(n, shapes)) == Tree(s)
  {
  }

  method CopyDict(n: Node, ghost s: Shape) returns (n': Node, ghost s': Shape)
    requires Document(n, s) && s.SObj?
    ensures Document(n', s') && Tree(s') == Tree(s) && fresh(Nodes(s'))
    decreases s, 1
  {
    var kids, shapes, all := CopyFields(n, s);
    n' := new Node(Fields(kids));
    MapDocument(n', kids, shapes, all);
    SameEntries(n', shapes, s);
    s' := SObj(n', shapes);
  }

  method CopyItems(n: Node, ghost s: Shape) returns (kids: seq<Node>, ghost shapes: seq<Shape>, ghost all: set<Node>)
    requires Document(n, s) && s.SArr?
    ensures DocumentList(kids, shapes, all) && fresh(all)
    ensures |shapes| == |s.items| && forall i :: 0 <= i < |shapes| ==> Tree(shapes[i]) == Tree(s.items[i])
    decreases s, 0
  {
    kids, shapes, all := [], [], {};
    var items := n.content.kids;
    for i := 0 to |items|
      invariant Document(n, s) && items == n.content.kids
      invariant |shapes| == i && fresh(all) && DocumentList(kids, shapes, all)
      invariant forall l :: 0 <= l < i ==> Tree(shapes[l]) == Tree(s.items[l])
    {
      var kid, shape := DeepCopy(items[i], s.items[i]);
      HoldsFrame(s);
      kids, shapes, all := kids + [kid], shapes + [shape], all + Nodes(shape);
    }
  }

  method CopyFields(n: Node, ghost s: Shape)
    returns (kids: map<string, Node>, ghost shapes: map<string, Shape>, ghost all: set<Node>)
    requires Document(n, s) && s.SObj?
    ensures DocumentMap(kids, shapes, all) && fresh(all)
    ensures shapes.Keys == s.fields.Keys && forall k :: k in shapes ==> Tree(shapes[k]) == Tree(s.fields[k])
    decreases s, 0
  {
    kids, shapes, all := map[], map[], {};
    var entries := n.content.entries;
    var keys := entries.Keys;
    while keys != {}
      invariant Document(n, s) && entries == n.content.entries
      invariant keys <= entries.Keys && shapes.Keys == entries.Keys - keys
      invariant fresh(all) && DocumentMap(kids, shapes, all)
      invariant forall k :: k in shapes ==> Tree(shapes[k]) == Tree(s.fields[k])
      decreases keys
    {
      var k :| k in keys;
      var kid, shape := DeepCopy(entries[k], s.fields[k]);
      HoldsFrame(s);
      MapGrows(kids, shapes, all, k, kid, shape);
      kids, shapes, all := kids[k := kid], shapes[k := shape], all + Nodes(shape);
      keys := keys - {k};
    }
  }
}
