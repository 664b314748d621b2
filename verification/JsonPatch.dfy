/** Planted-defect patches: what one operation and a list of operations do to a document. */
module JsonPatch {
  import opened Wrappers
  import opened JsonValue
  import opened Subscripts
  import JsonPointer
  import Text

  datatype Error =
    | NotAPointer
    | RootOperation
    | TraversesScalar
    | ScalarParent
    | BadIndex
    | IndexOutOfRange
    | MissingKey
    | UnsupportedOperation

  datatype Operation = Operation(op: Option<string>, path: string, value: Json)

  /* ---- Positions in a list ---- */

  /** The position a subscript means in a list of `n` elements; negative ones count from the end. */
  function Position(index: int, n: nat): Option<nat> {
    if 0 <= index < n then Some(index)
    else if index < 0 && 0 <= index + n then Some(index + n)
    else None
  }

  /** Where `list.insert` puts a new element: out-of-range subscripts are clamped. */
  function InsertPosition(index: int, n: nat): (p: nat)
    ensures p <= n
  {
    if index > n then n
    else if index >= 0 then index
    else if index + n >= 0 then index + n
    else 0
  }

  /* ---- One operation ---- */

  function Enter(j: Json, token: string): (r: Result<Step, Error>)
    ensures r.Success? ==> HasStep(j, r.value)
  {
    match j
    case Leaf(_) => Failure(TraversesScalar)
    case Arr(items) =>
      (match ParseInt(token)
       case None => Failure(BadIndex)
       case Some(index) =>
         match Position(index, |items|)
         case None => Failure(IndexOutOfRange)
         case Some(p) => Success(Index(p)))
    case Obj(fields) => if token in fields then Success(Key(token)) else Failure(MissingKey)
  }

  /** The location the tokens lead to. */
  function Walk(j: Json, tokens: seq<string>): (r: Result<Loc, Error>)
    ensures r.Success? ==> Exists(j, r.value)
    decreases |tokens|
  {
    if tokens == [] then Success([])
    else
      var step :- Enter(j, tokens[0]);
      var rest :- Walk(Child(j, step), tokens[1..]);
      Success([step] + rest)
  }

  /** A list after `insert`, item assignment or `pop`, whatever its elements are. */
  function EditList<T>(items: seq<T>, key: string, op: Option<string>, value: T): Result<seq<T>, Error> {
    match ParseInt(key)
    case None => Failure(BadIndex)
    case Some(index) =>
      if op == Some("add") then
        var p := InsertPosition(index, |items|);
        Success(items[..p] + [value] + items[p..])
      else if op != Some("replace") && op != Some("remove") then Failure(UnsupportedOperation)
      else match Position(index, |items|)
        case None => Failure(IndexOutOfRange)
        case Some(p) => Success(if op == Some("replace") then items[p := value] else items[..p] + items[p + 1..])
  }

  /** A dictionary after item assignment or a forgiving `pop`. */
  function EditDict<T>(fields: map<string, T>, key: string, op: Option<string>, value: T): Result<map<string, T>, Error> {
    if op == Some("replace") || op == Some("add") then Success(fields[key := value])
    else if op == Some("remove") then Success(fields - {key})
    else Failure(UnsupportedOperation)
  }

  /** The parent container after the operation. */
  function Edit(parent: Json, key: string, op: Option<string>, value: Json): Result<Json, Error> {
    match parent
    case Leaf(_) => Failure(ScalarParent)
    case Arr(items) => var r :- EditList(items, key, op, value); Success(Arr(r))
    case Obj(fields) => var r :- EditDict(fields, key, op, value); Success(Obj(r))
  }

  /** A pointer split into its parent's tokens and the last one. */
  function Target(path: string): Result<(seq<string>, string), Error> {
    match JsonPointer.PointerTokens(path)
    case Failure(_) => Failure(NotAPointer)
    case Success(tokens) =>
      if tokens == [] then Failure(RootOperation)
      else Success((tokens[..|tokens| - 1], tokens[|tokens| - 1]))
  }

  /** The location of the container an operation works on. */
  function ParentLoc(j: Json, path: string): (r: Result<Loc, Error>)
    ensures r.Success? ==> Exists(j, r.value)
  {
    var target :- Target(path);
    Walk(j, target.0)
  }

  function ApplyOne(j: Json, o: Operation): Result<Json, Error> {
    var target :- Target(o.path);
    var loc :- Walk(j, target.0);
    var edited :- Edit(At(j, loc), target.1, o.op, o.value);
    Success(Put(j, loc, edited))
  }

  /** The document after the operations, up to the first one that raises, and what it raised. */
  function ApplyAll(j: Json, ops: seq<Operation>): (Json, Option<Error>)
    decreases |ops|
  {
    if ops == [] then (j, None)
    else match ApplyOne(j, ops[0])
      case Failure(e) => (j, Some(e))
      case Success(j') => ApplyAll(j', ops[1..])
  }

  /* ---- Operations at a location ---- */

  function StepToken(step: Step): string {
    match step
    case Key(k) => k
    case Index(i) => Text.Decimal(i)
  }

  function TokensOf(loc: Loc): (tokens: seq<string>)
    ensures |tokens| == |loc|
  {
    seq(|loc|, i requires 0 <= i < |loc| => StepToken(loc[i]))
  }

  /** The pointer that spells a location: keys as they are, positions in decimal, everything escaped. */
  function PathOf(loc: Loc): string {
    JsonPointer.Pointer(TokensOf(loc))
  }

  /** A position counted from the front or, with a minus sign, from the end. */
  lemma EnterElement(items: seq<Json>, i: nat)
    ensures Enter(Arr(items), Text.Decimal(i)) == if i < |items| then Success(Index(i)) else Failure(IndexOutOfRange)
    ensures i > 0 ==>
              Enter(Arr(items), "-" + Text.Decimal(i)) == if i <= |items| then Success(Index(|items| - i)) else Failure(IndexOutOfRange)
  {
    PlainDecimal(i);
    MinusDecimal(i);
  }

  lemma EnterStep(j: Json, step: Step)
    requires HasStep(j, step)
    ensures Enter(j, StepToken(step)) == Success(step)
  {
    if step.Index? {
      EnterElement(j.items, step.i);
    }
  }

  lemma {:induction false} WalkReaches(j: Json, loc: Loc)
    requires Exists(j, loc)
    ensures Walk(j, TokensOf(loc)) == Success(loc)
    decreases |loc|
  {
    if loc == [] {
    } else {
      EnterStep(j, loc[0]);
      WalkReaches(Child(j, loc[0]), loc[1..]);
      assert TokensOf(loc)[1..] == TokensOf(loc[1..]);
      assert loc == [loc[0]] + loc[1..];
    }
  }

  /** A pointer spelled from a location leads to it; only the single empty key is taken for the whole document. */
  lemma PathReaches(j: Json, loc: Loc, step: Step)
    requires Exists(j, loc) && (loc != [] || step != Key(""))
    ensures Target(PathOf(loc + [step])) == Success((TokensOf(loc), StepToken(step)))
    ensures ParentLoc(j, PathOf(loc + [step])) == Success(loc)
  {
    var tokens := TokensOf(loc + [step]);
    assert tokens == TokensOf(loc) + [StepToken(step)];
    assert tokens != [""] by {
      if loc == [] {
        assert tokens[0] == StepToken(step) != "";
      }
    }
    JsonPointer.DecodeInvertsEncode(tokens);
    assert tokens[..|tokens| - 1] == TokensOf(loc);
    WalkReaches(j, loc);
  }

  lemma {:induction false} PutBelow(j: Json, loc: Loc, step: Step, v: Json)
    requires Exists(j, loc) && HasStep(At(j, loc), step)
    ensures Exists(j, loc + [step]) && Put(j, loc + [step], v) == Put(j, loc, WithChild(At(j, loc), step, v))
  {
    if loc == [] {
      assert [step][1..] == [] && loc + [step] == [step];
    } else {
      assert (loc + [step])[1..] == loc[1..] + [step];
      PutBelow(Child(j, loc[0]), loc[1..], step, v);
    }
  }

  /** An operation on a location edits its container. */
  lemma EditsContainer(j: Json, loc: Loc, step: Step, op: string, value: Json)
    requires Exists(j, loc) && (loc != [] || step != Key(""))
    ensures var r := ApplyOne(j, Operation(Some(op), PathOf(loc + [step]), value));
            var edited := Edit(At(j, loc), StepToken(step), Some(op), value);
            && (edited.Success? ==> r == Success(Put(j, loc, edited.value)))
            && (edited.Failure? ==> r == Failure(edited.error))
  {
    PathReaches(j, loc, step);
  }

  lemma ReplacesChild(parent: Json, step: Step, value: Json)
    requires HasStep(parent, step)
    ensures Edit(parent, StepToken(step), Some("replace"), value) == Success(WithChild(parent, step, value))
  {
    if step.Index? {
      PlainDecimal(step.i);
    }
  }

  /** Replacing at a location puts the value there. */
  lemma ReplacesAt(j: Json, loc: Loc, step: Step, value: Json)
    requires Exists(j, loc) && HasStep(At(j, loc), step) && (loc != [] || step != Key(""))
    ensures Exists(j, loc + [step])
    ensures ApplyOne(j, Operation(Some("replace"), PathOf(loc + [step]), value)) == Success(Put(j, loc + [step], value))
  {
    EditsContainer(j, loc, step, "replace", value);
    ReplacesChild(At(j, loc), step, value);
    PutBelow(j, loc, step, value);
  }

  /** A list with a new element in front of position `i`, or at the end. */
  function Inserted<T>(items: seq<T>, i: nat, value: T): seq<T> {
    if i < |items| then items[..i] + [value] + items[i..] else items + [value]
  }

  lemma AddsChild(parent: Json, step: Step, value: Json)
    ensures var r := Edit(parent, StepToken(step), Some("add"), value);
            && (parent.Leaf? ==> r == Failure(ScalarParent))
            && (parent.Obj? ==> r == Success(Obj(parent.fields[StepToken(step) := value])))
            && (parent.Arr? && step.Index? ==> r == Success(Arr(Inserted(parent.items, step.i, value))))
            && (parent.Arr? && step.Key? && (forall c :: c in step.k ==> !Text.IsDigit(c)) ==> r == Failure(BadIndex))
  {
    if step.Index? {
      PlainDecimal(step.i);
      if parent.Arr? && step.i >= |parent.items| {
        assert parent.items[..|parent.items|] + [value] + parent.items[|parent.items|..] == parent.items + [value];
      }
    } else if forall c :: c in step.k ==> !Text.IsDigit(c) {
      NoDigitNoNumber(step.k);
    }
  }

  /** Adding at a location sets a key, or makes room in a list; positions past its end append. */
  lemma AddsAt(j: Json, loc: Loc, step: Step, value: Json)
    requires Exists(j, loc) && (loc != [] || step != Key(""))
    ensures var r, parent := ApplyOne(j, Operation(Some("add"), PathOf(loc + [step]), value)), At(j, loc);
            && (parent.Leaf? ==> r == Failure(ScalarParent))
            && (parent.Obj? ==> r == Success(Put(j, loc, Obj(parent.fields[StepToken(step) := value]))))
            && (parent.Arr? && step.Index? ==> r == Success(Put(j, loc, Arr(Inserted(parent.items, step.i, value)))))
            && (parent.Arr? && step.Key? && (forall c :: c in step.k ==> !Text.IsDigit(c)) ==> r == Failure(BadIndex))
  {
    EditsContainer(j, loc, step, "add", value);
    AddsChild(At(j, loc), step, value);
  }

  lemma RemovesChild(parent: Json, step: Step, value: Json)
    requires HasStep(parent, step)
    ensures var r := Edit(parent, StepToken(step), Some("remove"), value);
            && (parent.Obj? ==> r == Success(Obj(parent.fields - {step.k})))
            && (parent.Arr? ==> r == Success(Arr(parent.items[..step.i] + parent.items[step.i + 1..])))
  {
    if step.Index? {
      PlainDecimal(step.i);
    }
  }

  /** Removing at a location takes the key or the element out and leaves the rest in order. */
  lemma RemovesAt(j: Json, loc: Loc, step: Step, value: Json)
    requires Exists(j, loc) && HasStep(At(j, loc), step) && (loc != [] || step != Key(""))
    ensures var r, parent := ApplyOne(j, Operation(Some("remove"), PathOf(loc + [step]), value)), At(j, loc);
            && (parent.Obj? ==> r == Success(Put(j, loc, Obj(parent.fields - {step.k}))))
            && (parent.Arr? ==> r == Success(Put(j, loc, Arr(parent.items[..step.i] + parent.items[step.i + 1..]))))
  {
    EditsContainer(j, loc, step, "remove", value);
    RemovesChild(At(j, loc), step, value);
  }

  /* ---- What an operation leaves alone ---- */

  /** A location apart from the edited container keeps its value. */
  lemma UntouchedElsewhere(j: Json, o: Operation, other: Loc)
    requires ApplyOne(j, o).Success?
    requires var loc := ParentLoc(j, o.path).value; !(loc <= other) && !(other <= loc)
    ensures Exists(ApplyOne(j, o).value, other) <==> Exists(j, other)
    ensures Exists(j, other) ==> At(ApplyOne(j, o).value, other) == At(j, other)
  {
    var loc := ParentLoc(j, o.path).value;
    var edited := Edit(At(j, loc), Target(o.path).value.1, o.op, o.value).value;
    PutElsewhere(j, loc, edited, other);
  }

  /** Where a child of the edited container sits afterwards; `None` for the child the operation is about. */
  function Moved(parent: Json, key: string, op: string, step: Step): Option<Step> {
    match step
    case Key(k) => if k == key then None else Some(step)
    case Index(i) =>
      if !parent.Arr? || ParseInt(key).None? then None
      else
        var index, n := ParseInt(key).value, |parent.items|;
        if op == "add" then Some(Index(if i < InsertPosition(index, n) then i else i + 1))
        else match Position(index, n)
          case None => None
          case Some(p) =>
            if i == p then None
            else if op == "remove" && i > p then Some(Index(i - 1))
            else Some(step)
  }

  lemma EditMoves(parent: Json, key: string, op: string, value: Json, step: Step)
    requires Edit(parent, key, Some(op), value).Success?
    requires HasStep(parent, step) && Moved(parent, key, op, step).Some?
    ensures var step' := Moved(parent, key, op, step).value;
            var edited := Edit(parent, key, Some(op), value).value;
            HasStep(edited, step') && Child(edited, step') == Child(parent, step)
  {
  }

  /** Where the value of an operation ends up in the edited container; a removal leaves none. */
  function Landed(parent: Json, key: string, op: string): Option<Step> {
    if op != "add" && op != "replace" then None
    else match parent
      case Leaf(_) => None
      case Obj(_) => Some(Key(key))
      case Arr(items) =>
        match ParseInt(key)
        case None => None
        case Some(index) =>
          if op == "add" then Some(Index(InsertPosition(index, |items|)))
          else match Position(index, |items|)
            case None => None
            case Some(p) => Some(Index(p))
  }

  /** The child a place of the edited container was taken by, unless the operation's value is there. */
  function Origin(parent: Json, key: string, op: string, step: Step): Step {
    match step
    case Key(_) => step
    case Index(i) =>
      if !parent.Arr? || ParseInt(key).None? then step
      else
        var index, n := ParseInt(key).value, |parent.items|;
        if op == "add" then (if i > InsertPosition(index, n) then Index(i - 1) else step)
        else match Position(index, n)
          case None => step
          case Some(p) => if op == "remove" && i >= p then Index(i + 1) else step
  }

  /** Every place of the edited container holds the operation's value or the child that moved there. */
  lemma EditOrigin(parent: Json, key: string, op: string, value: Json, step': Step)
    requires Edit(parent, key, Some(op), value).Success? && HasStep(Edit(parent, key, Some(op), value).value, step')
    ensures if Landed(parent, key, op) == Some(step') then Child(Edit(parent, key, Some(op), value).value, step') == value
            else && HasStep(parent, Origin(parent, key, op, step'))
                 && Moved(parent, key, op, Origin(parent, key, op, step')) == Some(step')
  {
  }

  lemma AtChild(j: Json, step: Step, rest: Loc)
    ensures Exists(j, [step] + rest) <==> HasStep(j, step) && Exists(Child(j, step), rest)
    ensures Exists(j, [step] + rest) ==> At(j, [step] + rest) == At(Child(j, step), rest)
  {
    assert ([step] + rest)[1..] == rest;
  }

  lemma SameChildAfterPut(j: Json, loc: Loc, edited: Json, step: Step, step': Step, rest: Loc)
    requires Exists(j, loc) && HasStep(At(j, loc), step) && HasStep(edited, step')
    requires Child(edited, step') == Child(At(j, loc), step)
    ensures Exists(Put(j, loc, edited), loc + [step'] + rest) <==> Exists(j, loc + [step] + rest)
    ensures Exists(j, loc + [step] + rest) ==> At(Put(j, loc, edited), loc + [step'] + rest) == At(j, loc + [step] + rest)
  {
    assert loc + [step] + rest == loc + ([step] + rest);
    assert loc + [step'] + rest == loc + ([step'] + rest);
    AtConcat(j, loc, [step] + rest);
    AtChild(At(j, loc), step, rest);
    AtChild(edited, step', rest);
    PutAt(j, loc, edited);
    AtConcat(Put(j, loc, edited), loc, [step'] + rest);
  }

  /** Siblings of the target keep their values and what is absent below them stays absent: dictionary entries in place, list
      elements shifted by at most one. */
  lemma UntouchedSiblings(j: Json, o: Operation, step: Step, rest: Loc)
    requires ApplyOne(j, o).Success? && o.op.Some?
    requires var loc := ParentLoc(j, o.path).value;
             HasStep(At(j, loc), step) && Moved(At(j, loc), Target(o.path).value.1, o.op.value, step).Some?
    ensures var loc, j' := ParentLoc(j, o.path).value, ApplyOne(j, o).value;
            var step' := Moved(At(j, loc), Target(o.path).value.1, o.op.value, step).value;
            && (Exists(j', loc + [step'] + rest) <==> Exists(j, loc + [step] + rest))
            && (Exists(j, loc + [step] + rest) ==> At(j', loc + [step'] + rest) == At(j, loc + [step] + rest))
  {
    var loc, key := ParentLoc(j, o.path).value, Target(o.path).value.1;
    var parent := At(j, loc);
    EditMoves(parent, key, o.op.value, o.value, step);
    SameChildAfterPut(j, loc, Edit(parent, key, o.op, o.value).value, step, Moved(parent, key, o.op.value, step).value, rest);
  }

  /** Below the edited container nothing appears but the operation's value and the siblings at their new places. */
  lemma NothingElseAppears(j: Json, o: Operation, step': Step, rest: Loc)
    requires ApplyOne(j, o).Success? && o.op.Some?
    requires Exists(ApplyOne(j, o).value, ParentLoc(j, o.path).value + [step'] + rest)
    ensures var loc, j', key := ParentLoc(j, o.path).value, ApplyOne(j, o).value, Target(o.path).value.1;
            if Landed(At(j, loc), key, o.op.value) == Some(step') then
              Exists(o.value, rest) && At(j', loc + [step'] + rest) == At(o.value, rest)
            else
              var step := Origin(At(j, loc), key, o.op.value, step');
              && HasStep(At(j, loc), step) && Moved(At(j, loc), key, o.op.value, step) == Some(step')
              && Exists(j, loc + [step] + rest) && At(j', loc + [step'] + rest) == At(j, loc + [step] + rest)
  {
    var loc, key := ParentLoc(j, o.path).value, Target(o.path).value.1;
    var parent := At(j, loc);
    var edited := Edit(parent, key, o.op, o.value).value;
    ChildExists(j, loc, edited, step', rest);
    EditOrigin(parent, key, o.op.value, o.value, step');
    if Landed(parent, key, o.op.value) != Some(step') {
      UntouchedSiblings(j, o, Origin(parent, key, o.op.value, step'), rest);
    }
  }

  lemma ChildExists(j: Json, loc: Loc, edited: Json, step': Step, rest: Loc)
    requires Exists(j, loc) && Exists(Put(j, loc, edited), loc + [step'] + rest)
    ensures HasStep(edited, step') && Exists(Child(edited, step'), rest)
    ensures At(Put(j, loc, edited), loc + [step'] + rest) == At(Child(edited, step'), rest)
  {
    assert loc + [step'] + rest == loc + ([step'] + rest);
    PutAt(j, loc, edited);
    AtConcat(Put(j, loc, edited), loc, [step'] + rest);
    AtChild(edited, step', rest);
  }

  /* ---- Targets that must exist ---- */

  /** Replacing or removing as sections 4.2 and 4.3 of RFC 6902 have it: the target location must exist. */
  function StrictOne(j: Json, o: Operation): Result<Json, Error> {
    if o.op != Some("replace") && o.op != Some("remove") then ApplyOne(j, o)
    else
      var target :- Target(o.path);
      var loc :- Walk(j, target.0);
      var step :- Enter(At(j, loc), target.1);
      ApplyOne(j, o)
  }

  /** The operation replaces or removes a key its dictionary does not have. */
  predicate MissesKey(j: Json, o: Operation) {
    && (o.op == Some("replace") || o.op == Some("remove"))
    && ParentLoc(j, o.path).Success?
    && At(j, ParentLoc(j, o.path).value).Obj?
    && Target(o.path).value.1 !in At(j, ParentLoc(j, o.path).value).fields
  }

  /** The tool succeeds with the same document, or fails as well, exactly when no dictionary key is missing. Where one is,
      the strict operation fails, replacing adds the key and removing changes nothing. */
  lemma StrictIff(j: Json, o: Operation)
    ensures (ApplyOne(j, o).Success? || StrictOne(j, o).Success? ==> ApplyOne(j, o) == StrictOne(j, o)) <==> !MissesKey(j, o)
    ensures MissesKey(j, o) ==>
              var loc, key := ParentLoc(j, o.path).value, Target(o.path).value.1;
              && StrictOne(j, o) == Failure(MissingKey)
              && (o.op == Some("replace") ==> ApplyOne(j, o) == Success(Put(j, loc, Obj(At(j, loc).fields[key := o.value]))))
              && (o.op == Some("remove") ==> ApplyOne(j, o) == Success(j))
  {
    if MissesKey(j, o) {
      var loc, key := ParentLoc(j, o.path).value, Target(o.path).value.1;
      assert At(j, loc).fields - {key} == At(j, loc).fields;
      PutSame(j, loc);
    }
  }

  /* ---- Operations that undo each other ---- */

  /** Editing the container found by a walk does not lead the same walk elsewhere. */
  lemma {:induction false} WalkAfterPut(j: Json, tokens: seq<string>, v: Json)
    requires Walk(j, tokens).Success?
    ensures Walk(Put(j, Walk(j, tokens).value, v), tokens) == Walk(j, tokens)
    decreases |tokens|
  {
    if tokens == [] {
    } else {
      var step := Enter(j, tokens[0]).value;
      var loc := Walk(j, tokens).value;
      assert loc[1..] == Walk(Child(j, step), tokens[1..]).value;
      WalkAfterPut(Child(j, step), tokens[1..], v);
    }
  }

  /** Two operations on one pointer amount to two edits of one container. */
  lemma TwoEdits(j: Json, path: string, op1: Option<string>, v1: Json, op2: Option<string>, v2: Json)
    requires ApplyOne(j, Operation(op1, path, v1)).Success?
    ensures var loc, key := ParentLoc(j, path).value, Target(path).value.1;
            var once := Edit(At(j, loc), key, op1, v1).value;
            ApplyAll(j, [Operation(op1, path, v1), Operation(op2, path, v2)])
            == match Edit(once, key, op2, v2)
               case Success(twice) => (Put(j, loc, twice), None)
               case Failure(e) => (Put(j, loc, once), Some(e))
  {
    var loc, key := ParentLoc(j, path).value, Target(path).value.1;
    var once := Edit(At(j, loc), key, op1, v1).value;
    var j' := Put(j, loc, once);
    WalkAfterPut(j, Target(path).value.0, once);
    PutAt(j, loc, once);
    var ops := [Operation(op1, path, v1), Operation(op2, path, v2)];
    var second := [Operation(op2, path, v2)];
    assert ops[1..] == second && second[1..] == [];
    assert ApplyAll(j, ops) == ApplyAll(j', second);
    assert ApplyOne(j', second[0]).Success? ==> ApplyAll(j', second) == (ApplyOne(j', second[0]).value, None);
    if Edit(once, key, op2, v2).Success? {
      PutTwice(j, loc, once, Edit(once, key, op2, v2).value);
    }
  }

  /** Writing a container back changes nothing exactly when it is the container that was there. */
  lemma PutRestores(j: Json, loc: Loc, v: Json)
    requires Exists(j, loc)
    ensures Put(j, loc, v) == j <==> v == At(j, loc)
  {
    PutSame(j, loc);
    PutAt(j, loc, v);
  }

  /** When removing at a subscript takes out what inserting at the same subscript put in. */
  predicate InsertUndone(items: seq<Json>, index: int, v: Json) {
    var n := |items|;
    0 <= index <= n || index == -n - 1 || (-n <= index < 0 && items[index + n] == v)
  }

  lemma InsertThenPop(items: seq<Json>, index: int, v: Json)
    ensures var p := InsertPosition(index, |items|);
            var more := items[..p] + [v] + items[p..];
            (match Position(index, |more|)
             case None => false
             case Some(q) => more[..q] + more[q + 1..] == items) <==> InsertUndone(items, index, v)
  {
    var n, p := |items|, InsertPosition(index, |items|);
    var more := items[..p] + [v] + items[p..];
    if Position(index, |more|).Some? {
      var q := Position(index, |more|).value;
      var left := more[..q] + more[q + 1..];
      if q == p {
        assert left == items;
      } else {
        assert q == p + 1 && left[p] == v;
        if items[p] == v {
          assert left == items;
        }
      }
    }
  }

  lemma AddThenRemoveEdit(parent: Json, key: string, v: Json)
    requires Edit(parent, key, Some("add"), v).Success?
    ensures Edit(Edit(parent, key, Some("add"), v).value, key, Some("remove"), Leaf(Null)) == Success(parent)
            <==> if parent.Obj? then key !in parent.fields else InsertUndone(parent.items, ParseInt(key).value, v)
  {
    if parent.Arr? {
      InsertThenPop(parent.items, ParseInt(key).value, v);
    } else if key !in parent.fields {
      assert parent.fields[key := v] - {key} == parent.fields;
    }
  }

  /** An addition followed by a removal restores the document exactly when a dictionary key was new, or a list
      subscript was not negative and at most the length (or it names the element it duplicated). */
  lemma AddThenRemove(j: Json, path: string, v: Json)
    requires ApplyOne(j, Operation(Some("add"), path, v)).Success?
    ensures var parent, key := At(j, ParentLoc(j, path).value), Target(path).value.1;
            ApplyAll(j, [Operation(Some("add"), path, v), Operation(Some("remove"), path, Leaf(Null))]) == (j, None)
            <==> if parent.Obj? then key !in parent.fields else InsertUndone(parent.items, ParseInt(key).value, v)
  {
    var loc, key := ParentLoc(j, path).value, Target(path).value.1;
    var parent := At(j, loc);
    var once := Edit(parent, key, Some("add"), v).value;
    TwoEdits(j, path, Some("add"), v, Some("remove"), Leaf(Null));
    AddThenRemoveEdit(parent, key, v);
    var twice := Edit(once, key, Some("remove"), Leaf(Null));
    if twice.Success? {
      PutRestores(j, loc, twice.value);
    }
  }

  /** The value an existing target has. */
  function TargetStep(j: Json, path: string): (r: Result<Step, Error>)
    requires ParentLoc(j, path).Success?
    ensures r.Success? ==> HasStep(At(j, ParentLoc(j, path).value), r.value)
  {
    Enter(At(j, ParentLoc(j, path).value), Target(path).value.1)
  }

  lemma ReplaceRestores(parent: Json, key: string, v: Json)
    requires Enter(parent, key).Success?
    ensures var step := Enter(parent, key).value;
            var replaced := Edit(parent, key, Some("replace"), v);
            replaced.Success? && Edit(replaced.value, key, Some("replace"), Child(parent, step)) == Success(parent)
  {
    var step := Enter(parent, key).value;
    if parent.Obj? {
      assert parent.fields[key := v][key := parent.fields[key]] == parent.fields;
    } else {
      assert parent.items[step.i := v][step.i := parent.items[step.i]] == parent.items;
    }
  }

  lemma RemoveRestores(parent: Json, key: string)
    requires Enter(parent, key).Success?
    ensures var step := Enter(parent, key).value;
            var removed := Edit(parent, key, Some("remove"), Leaf(Null));
            && removed.Success? && Edit(removed.value, key, Some("add"), Child(parent, step)).Success?
            && (Edit(removed.value, key, Some("add"), Child(parent, step)).value == parent
                <==> (parent.Obj? || ParseInt(key).value >= 0
                      || step.i == 0 || parent.items[step.i - 1] == parent.items[step.i]))
  {
    if parent.Obj? {
      assert (parent.fields - {key})[key := parent.fields[key]] == parent.fields;
    } else {
      PopThenInsert(parent.items, ParseInt(key).value);
    }
  }

  /** Replacing an existing value and replacing it back restores the document. */
  lemma ReplaceThenReplace(j: Json, path: string, v: Json)
    requires ParentLoc(j, path).Success? && TargetStep(j, path).Success?
    ensures var before := Child(At(j, ParentLoc(j, path).value), TargetStep(j, path).value);
            ApplyAll(j, [Operation(Some("replace"), path, v), Operation(Some("replace"), path, before)]) == (j, None)
  {
    var loc, key := ParentLoc(j, path).value, Target(path).value.1;
    ReplaceRestores(At(j, loc), key, v);
    TwoEdits(j, path, Some("replace"), v, Some("replace"), Child(At(j, loc), TargetStep(j, path).value));
    PutSame(j, loc);
  }

  /** Removing an existing value and adding it back restores the document exactly when the subscript of a list is not
      negative, or names the first element, or its left neighbour is equal; dictionaries always recover. */
  lemma RemoveThenAdd(j: Json, path: string)
    requires ParentLoc(j, path).Success? && TargetStep(j, path).Success?
    ensures var parent, step := At(j, ParentLoc(j, path).value), TargetStep(j, path).value;
            ApplyAll(j, [Operation(Some("remove"), path, Leaf(Null)), Operation(Some("add"), path, Child(parent, step))]) == (j, None)
            <==> (parent.Obj? || ParseInt(Target(path).value.1).value >= 0
                  || step.i == 0 || parent.items[step.i - 1] == parent.items[step.i])
  {
    var loc, key := ParentLoc(j, path).value, Target(path).value.1;
    var before := Child(At(j, loc), TargetStep(j, path).value);
    RemoveRestores(At(j, loc), key);
    TwoEdits(j, path, Some("remove"), Leaf(Null), Some("add"), before);
    var once := Edit(At(j, loc), key, Some("remove"), Leaf(Null)).value;
    PutRestores(j, loc, Edit(once, key, Some("add"), before).value);
  }

  lemma PopThenInsert(items: seq<Json>, index: int)
    requires Position(index, |items|).Some?
    ensures var p := Position(index, |items|).value;
            var fewer := items[..p] + items[p + 1..];
            var q := InsertPosition(index, |fewer|);
            fewer[..q] + [items[p]] + fewer[q..] == items
            <==> index >= 0 || p == 0 || items[p - 1] == items[p]
  {
    var p := Position(index, |items|).value;
    var fewer := items[..p] + items[p + 1..];
    var q := InsertPosition(index, |fewer|);
    var back := fewer[..q] + [items[p]] + fewer[q..];
    if index >= 0 || p == 0 {
      assert q == p && back == items;
    } else {
      assert q == p - 1 && back[p - 1] == items[p] && back[p] == items[p - 1];
      if items[p - 1] == items[p] {
        assert back == items;
      }
    }
  }
}
