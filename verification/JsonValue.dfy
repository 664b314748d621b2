/** JSON documents as values, and locations inside them. */
module JsonValue {

  datatype Scalar = Null | Bool(b: bool) | Int(i: int) | Float(r: real) | Str(s: string)

  datatype Json = Leaf(scalar: Scalar) | Arr(items: seq<Json>) | Obj(fields: map<string, Json>)

  datatype Step = Index(i: nat) | Key(k: string)

  /** A place in a document: the steps from the root down to it. */
  type Loc = seq<Step>

  predicate HasStep(j: Json, s: Step) {
    match j
    case Leaf(_) => false
    case Arr(items) => s.Index? && s.i < |items|
    case Obj(fields) => s.Key? && s.k in fields
  }

  function Child(j: Json, s: Step): (c: Json)
    requires HasStep(j, s)
    ensures c < j
  {
    match j
    case Arr(items) => items[s.i]
    case Obj(fields) => fields[s.k]
  }

  function WithChild(j: Json, s: Step, c: Json): Json
    requires HasStep(j, s)
  {
    match j
    case Arr(items) => Arr(items[s.i := c])
    case Obj(fields) => Obj(fields[s.k := c])
  }

  predicate Exists(j: Json, loc: Loc) {
    loc == [] || (HasStep(j, loc[0]) && Exists(Child(j, loc[0]), loc[1..]))
  }

  /** The value at a location. */
  function At(j: Json, loc: Loc): Json
    requires Exists(j, loc)
  {
    if loc == [] then j else At(Child(j, loc[0]), loc[1..])
  }

  /** The document with the value at one location exchanged. */
  function Put(j: Json, loc: Loc, v: Json): Json
    requires Exists(j, loc)
  {
    if loc == [] then v else WithChild(j, loc[0], Put(Child(j, loc[0]), loc[1..], v))
  }

  lemma {:induction false} PutAt(j: Json, loc: Loc, v: Json)
    requires Exists(j, loc)
    ensures Exists(Put(j, loc, v), loc) && At(Put(j, loc, v), loc) == v
  {
    if loc == [] {
    } else {
      PutAt(Child(j, loc[0]), loc[1..], v);
    }
  }

  lemma {:induction false} PutSame(j: Json, loc: Loc)
    requires Exists(j, loc)
    ensures Put(j, loc, At(j, loc)) == j
  {
    if loc == [] {
    } else {
      PutSame(Child(j, loc[0]), loc[1..]);
    }
  }

  lemma {:induction false} PutTwice(j: Json, loc: Loc, v: Json, w: Json)
    requires Exists(j, loc)
    ensures Exists(Put(j, loc, v), loc) && Put(Put(j, loc, v), loc, w) == Put(j, loc, w)
  {
    if loc == [] {
    } else {
      PutTwice(Child(j, loc[0]), loc[1..], v, w);
    }
  }

  /** Locations below `loc` are read through the value at `loc`. */
  lemma {:induction false} AtConcat(j: Json, loc: Loc, rest: Loc)
    requires Exists(j, loc)
    ensures Exists(j, loc + rest) <==> Exists(At(j, loc), rest)
    ensures Exists(At(j, loc), rest) ==> At(j, loc + rest) == At(At(j, loc), rest)
  {
    if loc == [] {
      assert loc + rest == rest;
    } else {
      AtConcat(Child(j, loc[0]), loc[1..], rest);
      assert (loc + rest)[1..] == loc[1..] + rest;
    }
  }

  /** Exchanging the value at `loc` is invisible at every location that is neither above nor below it. */
  lemma {:induction false} PutElsewhere(j: Json, loc: Loc, v: Json, other: Loc)
    requires Exists(j, loc)
    requires !(loc <= other) && !(other <= loc)
    ensures Exists(Put(j, loc, v), other) <==> Exists(j, other)
    ensures Exists(j, other) ==> At(Put(j, loc, v), other) == At(j, other)
  {
    assert loc != [] && other != [];
    if other[0] == loc[0] {
      assert loc == [loc[0]] + loc[1..] && other == [other[0]] + other[1..];
      PutElsewhere(Child(j, loc[0]), loc[1..], v, other[1..]);
    }
  }
}
