/** The snapshot comparator: normalisation, and a truncated difference list. */
module SnapshotCompare {
  import opened Wrappers
  import opened Ordering
  import opened JsonValue
  import T = Text

  /** Volatile keys, the string rewriter, and which values are too long to be compared piece by piece. */
  datatype Config = Config(volatileKeys: set<string>, rewrite: string -> string, tooLong: Json -> bool)

  /* ---- Python equality ---- */

  function Numeric(x: Scalar): Option<real> {
    match x
    case Bool(b) => Some(if b then 1.0 else 0.0)
    case Int(i) => Some(i as real)
    case Float(r) => Some(r)
    case _ => None
  }

  predicate ScalarEq(a: Scalar, b: Scalar) {
    if Numeric(a).Some? && Numeric(b).Some? then Numeric(a) == Numeric(b) else a == b
  }

  /** `a == b`: numbers compare across types, dictionaries without regard to order. */
  predicate PyEq(a: Json, b: Json) {
    match (a, b)
    case (Leaf(x), Leaf(y)) => ScalarEq(x, y)
    case (Arr(x), Arr(y)) => |x| == |y| && forall i :: 0 <= i < |x| ==> PyEq(x[i], y[i])
    case (Obj(x), Obj(y)) => x.Keys == y.Keys && forall k :: k in x ==> PyEq(x[k], y[k])
    case _ => false
  }

  /** Truth values and whole numbers equal the numbers they stand for; nothing else equals a value of another kind. */
  lemma ScalarsEqualIff(a: Scalar, b: Scalar)
    ensures PyEq(Leaf(Bool(true)), Leaf(Int(1))) && PyEq(Leaf(Bool(false)), Leaf(Int(0)))
    ensures a.Int? && b.Float? ==> (PyEq(Leaf(a), Leaf(b)) <==> a.i as real == b.r)
    ensures a.Str? || a.Null? ==> (PyEq(Leaf(a), Leaf(b)) <==> a == b)
  {
  }

  /* ---- Differences, without a limit ---- */

  datatype Kind = TooLong | KeyMissing | LengthDiffers | ValueDiffers

  /** A difference and where it was noticed, relative to the compared values. */
  datatype Mark = Mark(kind: Kind, loc: Loc)

  function Under(step: Step, marks: seq<Mark>): (r: seq<Mark>)
    ensures |r| == |marks|
  {
    seq(|marks|, i requires 0 <= i < |marks| => Mark(marks[i].kind, [step] + marks[i].loc))
  }

  predicate CharLeq(a: char, b: char) {
    a <= b
  }

  ghost function SetToSeq(s: set<string>): (r: seq<string>)
    ensures multiset(r) == multiset(s)
  {
    if s == {} then []
    else
      var x :| x in s;
      assert multiset(s) == multiset(s - {x}) + multiset{x};
      SetToSeq(s - {x}) + [x]
  }

  /** `sorted(keys)`. */
  ghost function SortedKeys(s: set<string>): (r: seq<string>)
    ensures multiset(r) == multiset(s)
  {
    Sort(Lex(CharLeq), SetToSeq(s))
  }

  method SortKeys(s: set<string>) returns (keys: seq<string>)
    ensures keys == SortedKeys(s)
  {
    var listed: seq<string> := [];
    var rest := s;
    while rest != {}
      invariant rest <= s && multiset(listed) == multiset(s - rest)
      decreases rest
    {
      var x :| x in rest;
      assert s - (rest - {x}) == (s - rest) + {x};
      listed, rest := listed + [x], rest - {x};
    }
    assert s - {} == s;
    keys := Sort(Lex(CharLeq), listed);
    LexTotal(CharLeq);
    SortOrderFree(Lex(CharLeq), listed, SetToSeq(s));
  }

  ghost function AllMarks(c: Config, a: Json, b: Json): seq<Mark>
    decreases a, 1, 0
  {
    if PyEq(a, b) then []
    else if c.tooLong(a) || c.tooLong(b) then [Mark(TooLong, [])]
    else match (a, b)
      case (Obj(x), Obj(y)) => KeyMarks(c, a, b, SortedKeys(x.Keys + y.Keys))
      case (Arr(x), Arr(y)) => if |x| != |y| then [Mark(LengthDiffers, [])] else ItemMarks(c, a, b, |x|)
      case _ => [Mark(ValueDiffers, [])]
  }

  /** The differences under one key. */
  ghost function KeyMark(c: Config, a: Json, b: Json, k: string): seq<Mark>
    requires a.Obj? && b.Obj?
    decreases a, 0, 0
  {
    if k in a.fields && k in b.fields then Under(Key(k), AllMarks(c, a.fields[k], b.fields[k]))
    else [Mark(KeyMissing, [Key(k)])]
  }

  ghost function KeyMarks(c: Config, a: Json, b: Json, keys: seq<string>): seq<Mark>
    requires a.Obj? && b.Obj?
    decreases a, 0, |keys| + 1
  {
    if keys == [] then []
    else KeyMarks(c, a, b, keys[..|keys| - 1]) + KeyMark(c, a, b, keys[|keys| - 1])
  }

  /** The differences among the first `n` elements. */
  ghost function ItemMarks(c: Config, a: Json, b: Json, n: nat): seq<Mark>
    requires a.Arr? && b.Arr? && n <= |a.items| == |b.items|
    decreases a, 0, n
  {
    if n == 0 then []
    else ItemMarks(c, a, b, n - 1) + Under(Index(n - 1), AllMarks(c, a.items[n - 1], b.items[n - 1]))
  }

  /* ---- Differences as the tool lists them ---- */

  datatype Finding = Finding(kind: Kind, subject: string)

  function StepText(s: Step): string {
    match s
    case Key(k) => "." + k
    case Index(i) => "[" + T.Decimal(i) + "]"
  }

  function LocText(loc: Loc): string {
    if loc == [] then "" else StepText(loc[0]) + LocText(loc[1..])
  }

  function Named(path: string, marks: seq<Mark>): (r: seq<Finding>)
    ensures |r| == |marks|
  {
    seq(|marks|, i requires 0 <= i < |marks| => Finding(marks[i].kind, path + LocText(marks[i].loc)))
  }

  function Take<X>(s: seq<X>, limit: nat): seq<X> {
    if |s| > limit then s[..limit] else s
  }

  lemma NamedUnder(path: string, step: Step, marks: seq<Mark>)
    ensures Named(path, Under(step, marks)) == Named(path + StepText(step), marks)
  {
    forall i | 0 <= i < |marks| ensures Named(path, Under(step, marks))[i] == Named(path + StepText(step), marks)[i] {
      TextUnder(path, step, marks[i].loc);
    }
  }

  lemma TextUnder(path: string, step: Step, loc: Loc)
    ensures path + LocText([step] + loc) == (path + StepText(step)) + LocText(loc)
  {
    assert ([step] + loc)[1..] == loc;
  }

  ghost function Listed(path: string, marks: seq<Mark>, limit: nat): seq<Finding> {
    Take(Named(path, marks), limit)
  }

  lemma TakeAppend<X>(a: seq<X>, b: seq<X>, limit: nat)
    ensures Take(Take(a, limit) + Take(b, limit), limit) == Take(a + b, limit)
    ensures |Take(a, limit)| >= limit ==> Take(a + b, limit) == Take(a, limit)
  {
  }

  lemma ListedAppend(path: string, a: seq<Mark>, b: seq<Mark>, limit: nat)
    ensures Take(Listed(path, a, limit) + Listed(path, b, limit), limit) == Listed(path, a + b, limit)
    ensures |Listed(path, a, limit)| >= limit ==> Listed(path, a + b, limit) == Listed(path, a, limit)
  {
    assert Named(path, a + b) == Named(path, a) + Named(path, b);
    TakeAppend(Named(path, a), Named(path, b), limit);
  }

  lemma {:induction false} FullAfterKeys(c: Config, a: Json, b: Json, keys: seq<string>, i: nat, path: string, limit: nat)
    requires a.Obj? && b.Obj? && i <= |keys| && |Listed(path, KeyMarks(c, a, b, keys[..i]), limit)| >= limit
    ensures Listed(path, KeyMarks(c, a, b, keys), limit) == Listed(path, KeyMarks(c, a, b, keys[..i]), limit)
    decreases |keys|
  {
    if i == |keys| {
      assert keys[..i] == keys;
    } else {
      var n := |keys| - 1;
      assert keys[..n][..i] == keys[..i];
      FullAfterKeys(c, a, b, keys[..n], i, path, limit);
      ListedAppend(path, KeyMarks(c, a, b, keys[..n]), KeyMark(c, a, b, keys[n]), limit);
    }
  }

  lemma {:induction false} FullAfterItems(c: Config, a: Json, b: Json, n: nat, i: nat, path: string, limit: nat)
    requires a.Arr? && b.Arr? && i <= n <= |a.items| == |b.items|
    requires |Listed(path, ItemMarks(c, a, b, i), limit)| >= limit
    ensures Listed(path, ItemMarks(c, a, b, n), limit) == Listed(path, ItemMarks(c, a, b, i), limit)
  {
    if i < n {
      FullAfterItems(c, a, b, n - 1, i, path, limit);
      ListedAppend(path, ItemMarks(c, a, b, n - 1), Under(Index(n - 1), AllMarks(c, a.items[n - 1], b.items[n - 1])), limit);
    }
  }

  /** The tool's list, cut off once `limit` findings are there: always the first ones of the full list. */
  method NormalizedDiffs(c: Config, before: Json, after: Json, path: string, limit: nat) returns (findings: seq<Finding>)
    requires limit >= 1
    ensures findings == Listed(path, AllMarks(c, before, after), limit)
    decreases before, 1
  {
    assert LocText([]) == "" && path + "" == path;
    if PyEq(before, after) {
      return [];
    }
    if c.tooLong(before) || c.tooLong(after) {
      return [Finding(TooLong, path)];
    }
    match (before, after) {
      case (Obj(_), Obj(_)) =>
        findings := DiffKeys(c, before, after, path, limit);
      case (Arr(x), Arr(y)) =>
        if |x| != |y| {
          return [Finding(LengthDiffers, path)];
        }
        findings := DiffItems(c, before, after, path, limit);
      case _ =>
        return [Finding(ValueDiffers, path)];
    }
  }

  method DiffKeys(c: Config, before: Json, after: Json, path: string, limit: nat) returns (findings: seq<Finding>)
    requires limit >= 1 && before.Obj? && after.Obj?
    ensures findings == Listed(path, KeyMarks(c, before, after, SortedKeys(before.fields.Keys + after.fields.Keys)), limit)
    decreases before, 0, 1
  {
    var keys := SortKeys(before.fields.Keys + after.fields.Keys);
    findings := [];
    for i := 0 to |keys|
      invariant findings == Listed(path, KeyMarks(c, before, after, keys[..i]), limit) && |findings| < limit
    {
      var more := DiffKey(c, before, after, keys[i], path, limit);
      ListedStep(c, before, after, keys, i, path, limit);
      findings := findings + more;
      if |findings| >= limit {
        FullAfterKeys(c, before, after, keys, i + 1, path, limit);
        return findings[..limit];
      }
    }
    assert keys[..|keys|] == keys;
  }

  lemma ListedStep(c: Config, a: Json, b: Json, keys: seq<string>, i: nat, path: string, limit: nat)
    requires a.Obj? && b.Obj? && i < |keys|
    ensures Take(Listed(path, KeyMarks(c, a, b, keys[..i]), limit) + Listed(path, KeyMark(c, a, b, keys[i]), limit), limit)
            == Listed(path, KeyMarks(c, a, b, keys[..i + 1]), limit)
  {
    assert keys[..i + 1][..i] == keys[..i];
    ListedAppend(path, KeyMarks(c, a, b, keys[..i]), KeyMark(c, a, b, keys[i]), limit);
  }

  /** What one key of two dictionaries contributes. */
  method DiffKey(c: Config, before: Json, after: Json, key: string, path: string, limit: nat) returns (findings: seq<Finding>)
    requires limit >= 1 && before.Obj? && after.Obj?
    ensures findings == Listed(path, KeyMark(c, before, after, key), limit)
    decreases before, 0, 0
  {
    if key !in before.fields || key !in after.fields {
      assert [Key(key)][1..] == [] && LocText([Key(key)]) == "." + key;
      return [Finding(KeyMissing, path + ("." + key))];
    }
    NamedUnder(path, Key(key), AllMarks(c, before.fields[key], after.fields[key]));
    findings := NormalizedDiffs(c, before.fields[key], after.fields[key], path + ("." + key), limit);
  }

  method DiffItems(c: Config, before: Json, after: Json, path: string, limit: nat) returns (findings: seq<Finding>)
    requires limit >= 1 && before.Arr? && after.Arr? && |before.items| == |after.items|
    ensures findings == Listed(path, ItemMarks(c, before, after, |before.items|), limit)
    decreases before, 0
  {
    findings := [];
    for i := 0 to |before.items|
      invariant findings == Listed(path, ItemMarks(c, before, after, i), limit) && |findings| < limit
    {
      ghost var nested := AllMarks(c, before.items[i], after.items[i]);
      ListedAppend(path, ItemMarks(c, before, after, i), Under(Index(i), nested), limit);
      NamedUnder(path, Index(i), nested);
      var more := NormalizedDiffs(c, before.items[i], after.items[i], path + ("[" + T.Decimal(i) + "]"), limit);
      findings := findings + more;
      if |findings| >= limit {
        FullAfterItems(c, before, after, |before.items|, i + 1, path, limit);
        return findings[..limit];
      }
    }
  }

  /* ---- What the list says ---- */

  /** Two values differ at a location: one of them has nothing there, or they are unequal there. */
  ghost predicate Differ(a: Json, b: Json, loc: Loc) {
    if Exists(a, loc) && Exists(b, loc) then !PyEq(At(a, loc), At(b, loc)) else Exists(a, loc) != Exists(b, loc)
  }

  lemma DifferUnder(a: Json, b: Json, step: Step, loc: Loc)
    requires HasStep(a, step) && HasStep(b, step)
    ensures Differ(a, b, [step] + loc) <==> Differ(Child(a, step), Child(b, step), loc)
  {
    assert ([step] + loc)[1..] == loc;
  }

  lemma {:induction false} KeyMarksHold(c: Config, a: Json, b: Json, keys: seq<string>, i: nat, m: Mark)
    requires a.Obj? && b.Obj? && i < |keys| && m in KeyMark(c, a, b, keys[i])
    ensures m in KeyMarks(c, a, b, keys)
  {
    var n := |keys| - 1;
    if i == n {
    } else {
      assert keys[..n][i] == keys[i];
      KeyMarksHold(c, a, b, keys[..n], i, m);
    }
  }

  lemma {:induction false} KeyMarksFrom(c: Config, a: Json, b: Json, keys: seq<string>, m: Mark) returns (k: string)
    requires a.Obj? && b.Obj? && m in KeyMarks(c, a, b, keys)
    ensures k in keys && m in KeyMark(c, a, b, k)
  {
    var n := |keys| - 1;
    if m in KeyMark(c, a, b, keys[n]) {
      k := keys[n];
    } else {
      k := KeyMarksFrom(c, a, b, keys[..n], m);
    }
  }

  lemma KeyMarksMember(c: Config, a: Json, b: Json, keys: seq<string>, m: Mark)
    requires a.Obj? && b.Obj?
    ensures m in KeyMarks(c, a, b, keys) <==> exists k :: k in keys && m in KeyMark(c, a, b, k)
  {
    if m in KeyMarks(c, a, b, keys) {
      var k := KeyMarksFrom(c, a, b, keys, m);
    }
    if k :| k in keys && m in KeyMark(c, a, b, k) {
      var i :| 0 <= i < |keys| && keys[i] == k;
      KeyMarksHold(c, a, b, keys, i, m);
    }
  }

  lemma {:induction false} ItemMarksHold(c: Config, a: Json, b: Json, n: nat, i: nat, m: Mark)
    requires a.Arr? && b.Arr? && i < n <= |a.items| == |b.items| && m in Under(Index(i), AllMarks(c, a.items[i], b.items[i]))
    ensures m in ItemMarks(c, a, b, n)
  {
    if i == n - 1 {
    } else {
      ItemMarksHold(c, a, b, n - 1, i, m);
    }
  }

  lemma {:induction false} ItemMarksFrom(c: Config, a: Json, b: Json, n: nat, m: Mark) returns (i: nat)
    requires a.Arr? && b.Arr? && n <= |a.items| == |b.items| && m in ItemMarks(c, a, b, n)
    ensures i < n && m in Under(Index(i), AllMarks(c, a.items[i], b.items[i]))
  {
    if m in Under(Index(n - 1), AllMarks(c, a.items[n - 1], b.items[n - 1])) {
      i := n - 1;
    } else {
      i := ItemMarksFrom(c, a, b, n - 1, m);
    }
  }

  lemma ItemMarksMember(c: Config, a: Json, b: Json, n: nat, m: Mark)
    requires a.Arr? && b.Arr? && n <= |a.items| == |b.items|
    ensures m in ItemMarks(c, a, b, n)
            <==> exists i :: 0 <= i < n && m in Under(Index(i), AllMarks(c, a.items[i], b.items[i]))
  {
    if m in ItemMarks(c, a, b, n) {
      var i := ItemMarksFrom(c, a, b, n, m);
    }
    if i :| 0 <= i < n && m in Under(Index(i), AllMarks(c, a.items[i], b.items[i])) {
      ItemMarksHold(c, a, b, n, i, m);
    }
  }

  lemma UnderMembers(step: Step, marks: seq<Mark>, m: Mark)
    ensures m in Under(step, marks) <==> m.loc != [] && m.loc[0] == step && Mark(m.kind, m.loc[1..]) in marks
  {
    if m in Under(step, marks) {
      var i :| 0 <= i < |marks| && Under(step, marks)[i] == m;
      assert m.loc[1..] == marks[i].loc;
    }
    if m.loc != [] && m.loc[0] == step && Mark(m.kind, m.loc[1..]) in marks {
      var i :| 0 <= i < |marks| && marks[i] == Mark(m.kind, m.loc[1..]);
      assert m.loc == [step] + m.loc[1..];
      assert Under(step, marks)[i] == m;
    }
  }

  lemma SortedKeysMembers(s: set<string>)
    ensures forall k :: k in SortedKeys(s) <==> k in s
  {
    forall k ensures k in SortedKeys(s) <==> k in s {
      assert k in multiset(SortedKeys(s)) <==> k in multiset(s);
    }
  }

  /** The marks of two unequal dictionaries or equally long lists, one level down. */
  lemma MarksInside(c: Config, a: Json, b: Json, m: Mark)
    requires !PyEq(a, b) && !c.tooLong(a) && !c.tooLong(b)
    ensures a.Obj? && b.Obj? ==>
              (m in AllMarks(c, a, b) <==> exists k :: k in a.fields.Keys + b.fields.Keys && m in KeyMark(c, a, b, k))
    ensures a.Arr? && b.Arr? && |a.items| == |b.items| ==>
              (m in AllMarks(c, a, b) <==> exists i :: 0 <= i < |a.items| && m in Under(Index(i), AllMarks(c, a.items[i], b.items[i])))
  {
    if a.Obj? && b.Obj? {
      var keys := SortedKeys(a.fields.Keys + b.fields.Keys);
      SortedKeysMembers(a.fields.Keys + b.fields.Keys);
      KeyMarksMember(c, a, b, keys, m);
    } else if a.Arr? && b.Arr? && |a.items| == |b.items| {
      ItemMarksMember(c, a, b, |a.items|, m);
    }
  }

  /** Every marked location is one where the values differ. */
  lemma {:induction false} MarksSound(c: Config, a: Json, b: Json, m: Mark)
    requires m in AllMarks(c, a, b)
    ensures Differ(a, b, m.loc)
    decreases a
  {
    if m.loc == [] {
    } else {
      MarksInside(c, a, b, m);
      if a.Obj? {
        var k :| k in a.fields.Keys + b.fields.Keys && m in KeyMark(c, a, b, k);
        if k in a.fields && k in b.fields {
          UnderMembers(Key(k), AllMarks(c, a.fields[k], b.fields[k]), m);
          MarksSound(c, a.fields[k], b.fields[k], Mark(m.kind, m.loc[1..]));
          assert m.loc == [Key(k)] + m.loc[1..];
          DifferUnder(a, b, Key(k), m.loc[1..]);
        } else {
          assert m.loc == [Key(k)] && m.loc[1..] == [];
        }
      } else {
        var i :| 0 <= i < |a.items| && m in Under(Index(i), AllMarks(c, a.items[i], b.items[i]));
        UnderMembers(Index(i), AllMarks(c, a.items[i], b.items[i]), m);
        MarksSound(c, a.items[i], b.items[i], Mark(m.kind, m.loc[1..]));
        assert m.loc == [Index(i)] + m.loc[1..];
        DifferUnder(a, b, Index(i), m.loc[1..]);
      }
    }
  }

  lemma PyEqReflects(a: Json, b: Json, step: Step)
    requires PyEq(a, b)
    ensures HasStep(a, step) <==> HasStep(b, step)
    ensures HasStep(a, step) ==> PyEq(Child(a, step), Child(b, step))
  {
  }

  lemma {:induction false} EqualNowhereDiffer(a: Json, b: Json, loc: Loc)
    requires PyEq(a, b)
    ensures !Differ(a, b, loc)
    decreases |loc|
  {
    if loc == [] {
    } else {
      PyEqReflects(a, b, loc[0]);
      if HasStep(a, loc[0]) {
        EqualNowhereDiffer(Child(a, loc[0]), Child(b, loc[0]), loc[1..]);
      }
    }
  }

  /** Nothing is marked exactly when the two values are equal. */
  lemma {:induction false} NoMarksIffEqual(c: Config, a: Json, b: Json)
    ensures AllMarks(c, a, b) == [] <==> PyEq(a, b)
    decreases a
  {
    if !PyEq(a, b) && !c.tooLong(a) && !c.tooLong(b) {
      if a.Obj? && b.Obj? {
        var k :| k in a.fields.Keys + b.fields.Keys
                 && (k in a.fields && k in b.fields ==> !PyEq(a.fields[k], b.fields[k]));
        if k in a.fields && k in b.fields {
          NoMarksIffEqual(c, a.fields[k], b.fields[k]);
        }
        var m := KeyMark(c, a, b, k)[0];
        MarksInside(c, a, b, m);
      } else if a.Arr? && b.Arr? && |a.items| == |b.items| {
        var i :| 0 <= i < |a.items| && !PyEq(a.items[i], b.items[i]);
        NoMarksIffEqual(c, a.items[i], b.items[i]);
        var m := Under(Index(i), AllMarks(c, a.items[i], b.items[i]))[0];
        MarksInside(c, a, b, m);
      }
    }
  }

  predicate Related(l: Loc, k: Loc) {
    l <= k || k <= l
  }

  /** Every difference lies above, at or below a marked location. */
  lemma {:induction false} MarksComplete(c: Config, a: Json, b: Json, loc: Loc) returns (m: Mark)
    requires Differ(a, b, loc)
    ensures m in AllMarks(c, a, b) && Related(m.loc, loc)
    decreases a
  {
    if PyEq(a, b) {
      EqualNowhereDiffer(a, b, loc);
    }
    NoMarksIffEqual(c, a, b);
    m := AllMarks(c, a, b)[0];
    if m.loc != [] && loc != [] {
      m := MarkUnder(c, a, b, loc);
    }
  }

  lemma {:induction false} MarkUnder(c: Config, a: Json, b: Json, loc: Loc) returns (m: Mark)
    requires Differ(a, b, loc) && loc != [] && !PyEq(a, b) && AllMarks(c, a, b) != [] && AllMarks(c, a, b)[0].loc != []
    ensures m in AllMarks(c, a, b) && Related(m.loc, loc)
    decreases a, 0
  {
    var step := loc[0];
    assert loc == [step] + loc[1..];
    if HasStep(a, step) && HasStep(b, step) {
      DifferUnder(a, b, step, loc[1..]);
      var n := MarksComplete(c, Child(a, step), Child(b, step), loc[1..]);
      m := Mark(n.kind, [step] + n.loc);
      assert m.loc[1..] == n.loc;
      UnderMembers(step, AllMarks(c, Child(a, step), Child(b, step)), m);
      MarksInside(c, a, b, m);
      if a.Obj? {
        assert m in KeyMark(c, a, b, step.k);
      }
    } else {
      assert a.Obj? && b.Obj?;
      m := Mark(KeyMissing, [step]);
      assert m in KeyMark(c, a, b, step.k);
      MarksInside(c, a, b, m);
    }
  }

  /** What a list of findings says about two values: it is empty exactly for equal ones and never exceeds the limit; each
      subject names a location where the values differ; and an uncut list has a subject above, at or below every
      difference. */
  ghost predicate Tells(a: Json, b: Json, path: string, limit: nat, findings: seq<Finding>) {
    && (findings == [] <==> PyEq(a, b))
    && |findings| <= limit
    && (forall f :: f in findings ==> exists loc :: f.subject == path + LocText(loc) && Differ(a, b, loc))
    && (|findings| < limit ==> forall loc :: Differ(a, b, loc) ==>
          exists l :: Related(l, loc) && exists f :: f in findings && f.subject == path + LocText(l))
  }

  lemma ListedIsSoundAndComplete(c: Config, a: Json, b: Json, path: string, limit: nat)
    requires limit >= 1
    ensures Tells(a, b, path, limit, Listed(path, AllMarks(c, a, b), limit))
  {
    var marks := AllMarks(c, a, b);
    var findings := Listed(path, marks, limit);
    NoMarksIffEqual(c, a, b);
    forall f | f in findings ensures exists loc :: f.subject == path + LocText(loc) && Differ(a, b, loc) {
      var i :| 0 <= i < |findings| && findings[i] == f;
      assert marks[i] in marks && f.subject == path + LocText(marks[i].loc);
      MarksSound(c, a, b, marks[i]);
    }
    if |findings| < limit {
      forall loc | Differ(a, b, loc)
        ensures exists l :: Related(l, loc) && exists f :: f in findings && f.subject == path + LocText(l)
      {
        var m := MarksComplete(c, a, b, loc);
        var i :| 0 <= i < |marks| && marks[i] == m;
        assert findings[i] in findings && findings[i].subject == path + LocText(m.loc);
      }
    }
  }

  /* ---- Which differences are listed, and in which order ---- */

  /** The comparison goes on inside two values. */
  predicate Opened(c: Config, x: Json, y: Json) {
    && !PyEq(x, y) && !c.tooLong(x) && !c.tooLong(y)
    && ((x.Obj? && y.Obj?) || (x.Arr? && y.Arr? && |x.items| == |y.items|))
  }

  /** Both values have the location, and the comparison goes on all the way down to it. */
  predicate Reached(c: Config, a: Json, b: Json, loc: Loc)
    ensures Reached(c, a, b, loc) ==> Exists(a, loc) && Exists(b, loc)
    decreases |loc|
  {
    loc == [] || (Opened(c, a, b) && HasStep(a, loc[0]) && HasStep(b, loc[0])
                  && Reached(c, Child(a, loc[0]), Child(b, loc[0]), loc[1..]))
  }

  predicate LacksKey(c: Config, x: Json, y: Json, step: Step) {
    x.Obj? && y.Obj? && Opened(c, x, y) && step.Key? && (step.k in x.fields) != (step.k in y.fields)
  }

  /** The kind of difference between two values that are not compared further. */
  predicate Stops(c: Config, x: Json, y: Json, kind: Kind) {
    && !PyEq(x, y)
    && match kind
       case TooLong => c.tooLong(x) || c.tooLong(y)
       case LengthDiffers => !c.tooLong(x) && !c.tooLong(y) && x.Arr? && y.Arr? && |x.items| != |y.items|
       case ValueDiffers => !c.tooLong(x) && !c.tooLong(y) && !(x.Obj? && y.Obj?) && !(x.Arr? && y.Arr?)
       case KeyMissing => false
  }

  /** A difference the comparison is owed: a key one of two compared dictionaries lacks, or two values at the end of the
      comparison. */
  predicate Noticed(c: Config, a: Json, b: Json, m: Mark) {
    if m.kind.KeyMissing? then
      var n := |m.loc| - 1;
      m.loc != [] && Reached(c, a, b, m.loc[..n]) && LacksKey(c, At(a, m.loc[..n]), At(b, m.loc[..n]), m.loc[n])
    else
      Reached(c, a, b, m.loc) && Stops(c, At(a, m.loc), At(b, m.loc), m.kind)
  }

  lemma NoticedUnder(c: Config, a: Json, b: Json, m: Mark)
    requires m.loc != []
    ensures var step, rest := m.loc[0], Mark(m.kind, m.loc[1..]);
            Noticed(c, a, b, m)
            <==> Opened(c, a, b)
                 && if HasStep(a, step) && HasStep(b, step) then Noticed(c, Child(a, step), Child(b, step), rest)
                    else m.kind == KeyMissing && m.loc == [step] && LacksKey(c, a, b, step)
  {
    var n, step, rest := |m.loc| - 1, m.loc[0], m.loc[1..];
    if m.kind.KeyMissing? {
      if n == 0 {
        assert m.loc[..0] == [] && rest == [] && m.loc == [step];
      } else {
        assert m.loc[..n][1..] == rest[..n - 1] && rest[n - 1] == m.loc[n] && m.loc[..n][0] == step;
      }
    }
  }

  /** The differences marked are exactly those the comparison is owed. */
  lemma {:induction false} MarkedIffNoticed(c: Config, a: Json, b: Json, m: Mark)
    ensures m in AllMarks(c, a, b) <==> Noticed(c, a, b, m)
    decreases a
  {
    if !Opened(c, a, b) {
      if m.loc != [] {
        NoticedUnder(c, a, b, m);
      }
    } else if m.loc == [] {
      MarksInside(c, a, b, m);
    } else {
      var step := m.loc[0];
      if HasStep(a, step) && HasStep(b, step) {
        MarkedIffNoticed(c, Child(a, step), Child(b, step), Mark(m.kind, m.loc[1..]));
      }
      NoticedUnder(c, a, b, m);
      if a.Obj? {
        MarkedUnderKey(c, a, b, m);
      } else {
        MarkedUnderIndex(c, a, b, m);
      }
    }
  }

  lemma MarkedUnderKey(c: Config, a: Json, b: Json, m: Mark)
    requires Opened(c, a, b) && a.Obj? && m.loc != []
    ensures var step, rest := m.loc[0], Mark(m.kind, m.loc[1..]);
            m in AllMarks(c, a, b)
            <==> if HasStep(a, step) && HasStep(b, step) then rest in AllMarks(c, Child(a, step), Child(b, step))
                 else m.kind == KeyMissing && m.loc == [step] && (HasStep(a, step) || HasStep(b, step))
  {
    var step := m.loc[0];
    MarksInside(c, a, b, m);
    if k :| k in a.fields.Keys + b.fields.Keys && m in KeyMark(c, a, b, k) {
      KeyMarkIff(c, a, b, k, m);
    }
    if step.Key? && step.k in a.fields.Keys + b.fields.Keys {
      KeyMarkIff(c, a, b, step.k, m);
    }
  }

  lemma KeyMarkIff(c: Config, a: Json, b: Json, k: string, m: Mark)
    requires a.Obj? && b.Obj? && m.loc != []
    ensures m in KeyMark(c, a, b, k)
            <==> m.loc[0] == Key(k)
                 && if k in a.fields && k in b.fields then Mark(m.kind, m.loc[1..]) in AllMarks(c, a.fields[k], b.fields[k])
                    else m == Mark(KeyMissing, [Key(k)])
  {
    if k in a.fields && k in b.fields {
      UnderMembers(Key(k), AllMarks(c, a.fields[k], b.fields[k]), m);
    }
  }

  lemma MarkedUnderIndex(c: Config, a: Json, b: Json, m: Mark)
    requires Opened(c, a, b) && a.Arr? && m.loc != []
    ensures var step, rest := m.loc[0], Mark(m.kind, m.loc[1..]);
            m in AllMarks(c, a, b)
            <==> HasStep(a, step) && rest in AllMarks(c, Child(a, step), Child(b, step))
  {
    var step := m.loc[0];
    MarksInside(c, a, b, m);
    if i :| 0 <= i < |a.items| && m in Under(Index(i), AllMarks(c, a.items[i], b.items[i])) {
      UnderMembers(Index(i), AllMarks(c, a.items[i], b.items[i]), m);
    }
    if HasStep(a, step) {
      UnderMembers(step, AllMarks(c, Child(a, step), Child(b, step)), m);
    }
  }

  predicate CharLess(a: char, b: char) {
    a < b
  }

  ghost predicate StepBefore(s: Step, t: Step) {
    match (s, t)
    case (Key(k), Key(l)) => Precedes(CharLess, k, l)
    case (Index(i), Index(j)) => i < j
    case _ => false
  }

  /** Locations in the order of a walk that takes keys in ascending order. */
  ghost predicate Before(l: Loc, k: Loc) {
    l != [] && k != [] && if l[0] == k[0] then Before(l[1..], k[1..]) else StepBefore(l[0], k[0])
  }

  ghost predicate Ascending(marks: seq<Mark>) {
    forall i, j :: 0 <= i < j < |marks| ==> Before(marks[i].loc, marks[j].loc)
  }

  lemma AscendingAppend(a: seq<Mark>, b: seq<Mark>)
    requires Ascending(a) && Ascending(b) && forall m, n :: m in a && n in b ==> Before(m.loc, n.loc)
    ensures Ascending(a + b)
  {
  }

  lemma AscendingUnder(step: Step, marks: seq<Mark>)
    requires Ascending(marks)
    ensures Ascending(Under(step, marks))
  {
    forall i, j | 0 <= i < j < |marks| ensures Before(Under(step, marks)[i].loc, Under(step, marks)[j].loc) {
      assert ([step] + marks[i].loc)[1..] == marks[i].loc && ([step] + marks[j].loc)[1..] == marks[j].loc;
    }
  }

  lemma KeysAscend(s: set<string>)
    ensures forall i, j :: 0 <= i < j < |SortedKeys(s)| ==> StepBefore(Key(SortedKeys(s)[i]), Key(SortedKeys(s)[j]))
  {
    var keys := SortedKeys(s);
    LexTotal(CharLeq);
    SortSorted(Lex(CharLeq), SetToSeq(s));
    forall i, j | 0 <= i < j < |keys| ensures StepBefore(Key(keys[i]), Key(keys[j])) {
      NoKeyTwice(keys, s, i, j);
      LexPrecedes(CharLeq, CharLess, keys[i], keys[j]);
    }
  }

  lemma NoKeyTwice(keys: seq<string>, s: set<string>, i: nat, j: nat)
    requires multiset(keys) == multiset(s) && i < j < |keys|
    ensures keys[i] != keys[j]
  {
    assert keys == keys[..j] + ([keys[j]] + keys[j + 1..]);
    assert keys[i] in keys[..j];
    assert multiset(keys)[keys[j]] <= 1;
  }

  lemma {:induction false} MarksAscend(c: Config, a: Json, b: Json)
    ensures Ascending(AllMarks(c, a, b))
    decreases a, 1
  {
    if Opened(c, a, b) {
      if a.Obj? {
        var all := a.fields.Keys + b.fields.Keys;
        var keys := SortedKeys(all);
        SortedKeysMembers(all);
        KeysAscend(all);
        KeyMarksAscend(c, a, b, keys);
      } else {
        ItemMarksAscend(c, a, b, |a.items|);
      }
    }
  }

  lemma {:induction false} KeyMarksAscend(c: Config, a: Json, b: Json, keys: seq<string>)
    requires a.Obj? && b.Obj?
    requires forall i, j :: 0 <= i < j < |keys| ==> StepBefore(Key(keys[i]), Key(keys[j]))
    ensures Ascending(KeyMarks(c, a, b, keys))
    ensures forall m :: m in KeyMarks(c, a, b, keys) ==> m.loc != [] && exists i :: 0 <= i < |keys| && m.loc[0] == Key(keys[i])
    decreases a, 0, |keys| + 1
  {
    if keys == [] {
    } else {
      var n := |keys| - 1;
      var before, last := KeyMarks(c, a, b, keys[..n]), KeyMark(c, a, b, keys[n]);
      KeyMarksAscend(c, a, b, keys[..n]);
      KeyMarkAscends(c, a, b, keys[n]);
      forall m, m' | m in before && m' in last ensures Before(m.loc, m'.loc) {
        var i :| 0 <= i < |keys[..n]| && m.loc[0] == Key(keys[..n][i]);
        FirstStepBefore(m.loc, m'.loc, keys[i], keys[n]);
      }
      AscendingAppend(before, last);
      forall m | m in before + last ensures m.loc != [] && exists i :: 0 <= i < |keys| && m.loc[0] == Key(keys[i]) {
        if m in before {
          var i :| 0 <= i < |keys[..n]| && m.loc[0] == Key(keys[..n][i]);
          assert m.loc[0] == Key(keys[i]);
        }
      }
    }
  }

  lemma FirstStepBefore(l: Loc, k: Loc, x: string, y: string)
    requires l != [] && k != [] && l[0] == Key(x) && k[0] == Key(y) && StepBefore(Key(x), Key(y))
    ensures Before(l, k)
  {
    NotBeforeItself(x);
  }

  lemma NotBeforeItself(k: string)
    ensures !Precedes(CharLess, k, k)
  {
  }

  lemma {:induction false} KeyMarkAscends(c: Config, a: Json, b: Json, k: string)
    requires a.Obj? && b.Obj?
    ensures Ascending(KeyMark(c, a, b, k))
    ensures forall m :: m in KeyMark(c, a, b, k) ==> m.loc != [] && m.loc[0] == Key(k)
    decreases a, 0, 0
  {
    if k in a.fields && k in b.fields {
      MarksAscend(c, a.fields[k], b.fields[k]);
      AscendingUnder(Key(k), AllMarks(c, a.fields[k], b.fields[k]));
    }
  }

  lemma {:induction false} ItemMarksAscend(c: Config, a: Json, b: Json, n: nat)
    requires a.Arr? && b.Arr? && n <= |a.items| == |b.items|
    ensures Ascending(ItemMarks(c, a, b, n))
    ensures forall m :: m in ItemMarks(c, a, b, n) ==> m.loc != [] && m.loc[0].Index? && m.loc[0].i < n
    decreases a, 0, n
  {
    if n == 0 {
    } else {
      var nested := AllMarks(c, a.items[n - 1], b.items[n - 1]);
      ItemMarksAscend(c, a, b, n - 1);
      MarksAscend(c, a.items[n - 1], b.items[n - 1]);
      AscendingUnder(Index(n - 1), nested);
      AscendingAppend(ItemMarks(c, a, b, n - 1), Under(Index(n - 1), nested));
    }
  }

  /** The first differences, up to the limit, in ascending order of their locations: nothing that is not owed, and whatever
      is owed beyond them comes later and has no room. */
  ghost predicate FirstNoticed(c: Config, a: Json, b: Json, marks: seq<Mark>, limit: nat) {
    && |marks| <= limit && Ascending(marks)
    && (forall m :: m in marks ==> Noticed(c, a, b, m))
    && (forall m :: Noticed(c, a, b, m) && m !in marks ==>
          |marks| == limit && forall n :: n in marks ==> Before(n.loc, m.loc))
  }

  /** The findings name the first differences, each with its kind and its location below `path`. */
  ghost predicate ListsFirst(c: Config, a: Json, b: Json, path: string, limit: nat, findings: seq<Finding>) {
    exists marks: seq<Mark> :: FirstNoticed(c, a, b, marks, limit) && |findings| == |marks|
      && forall i :: 0 <= i < |marks| ==> findings[i] == Finding(marks[i].kind, path + LocText(marks[i].loc))
  }

  lemma ListedAreFirst(c: Config, a: Json, b: Json, path: string, limit: nat)
    ensures ListsFirst(c, a, b, path, limit, Listed(path, AllMarks(c, a, b), limit))
  {
    var all := AllMarks(c, a, b);
    var marks := Take(all, limit);
    MarksAscend(c, a, b);
    forall m | m in marks ensures Noticed(c, a, b, m) {
      MarkedIffNoticed(c, a, b, m);
    }
    forall m | Noticed(c, a, b, m) && m !in marks
      ensures |marks| == limit && forall n :: n in marks ==> Before(n.loc, m.loc)
    {
      MarkedIffNoticed(c, a, b, m);
      var i :| 0 <= i < |all| && all[i] == m;
      assert forall n :: 0 <= n < |marks| ==> all[n] in marks;
    }
    assert FirstNoticed(c, a, b, marks, limit);
  }

  /* ---- Normalisation ---- */

  function Normalize(c: Config, v: Json, key: string): Json {
    if key in c.volatileKeys then Leaf(Str("<volatile:" + key + ">"))
    else match v
      case Obj(fields) => Obj(map k | k in fields :: Normalize(c, fields[k], k))
      case Arr(items) => Arr(seq(|items|, i requires 0 <= i < |items| => Normalize(c, items[i], key)))
      case Leaf(Str(s)) => Leaf(Str(c.rewrite(s)))
      case Leaf(_) => v
  }

  /** The key a value at a location is normalised under. */
  function KeyAt(loc: Loc, key: string): string {
    if loc == [] then key else KeyAt(loc[1..], if loc[0].Key? then loc[0].k else key)
  }

  lemma {:induction false} NormalizedBelow(c: Config, v: Json, key: string, loc: Loc)
    requires key !in c.volatileKeys && Exists(v, loc) && Visible(c, loc)
    ensures Exists(Normalize(c, v, key), loc) && KeyAt(loc, key) !in c.volatileKeys
    ensures At(Normalize(c, v, key), loc) == Normalize(c, At(v, loc), KeyAt(loc, key))
    decreases |loc|
  {
    if loc == [] {
    } else {
      var step, rest := loc[0], loc[1..];
      assert loc == [step] + rest && step in loc && Visible(c, rest);
      NormalizedBelow(c, Child(v, step), if step.Key? then step.k else key, rest);
    }
  }

  /** Below visible keys only, a volatile key holds its placeholder, texts are rewritten, other scalars stay, and containers
      keep their keys and lengths. */
  lemma NormalizedPlaces(c: Config, v: Json, loc: Loc)
    requires "" !in c.volatileKeys && Exists(v, loc) && Visible(c, loc)
    ensures Exists(Normalize(c, v, ""), loc)
    ensures var x, y := At(v, loc), At(Normalize(c, v, ""), loc);
            && (x.Leaf? ==> y == Leaf(if x.scalar.Str? then Str(c.rewrite(x.scalar.s)) else x.scalar))
            && (x.Arr? ==> y.Arr? && |y.items| == |x.items|)
            && (x.Obj? ==> y.Obj? && y.fields.Keys == x.fields.Keys
                           && forall k :: k in x.fields && k in c.volatileKeys ==> y.fields[k] == Leaf(Str("<volatile:" + k + ">")))
  {
    NormalizedBelow(c, v, "", loc);
  }

  /** What can be seen of a value at a location: the shape, the keys, a number, or the rewritten text. */
  datatype View = Nothing | Dict(keys: set<string>) | Items(n: nat) | Text(s: string) | Number(r: real) | NullValue

  function Observe(c: Config, v: Json, loc: Loc): View {
    if !Exists(v, loc) then Nothing
    else match At(v, loc)
      case Obj(fields) => Dict(fields.Keys)
      case Arr(items) => Items(|items|)
      case Leaf(Str(s)) => Text(c.rewrite(s))
      case Leaf(Null) => NullValue
      case Leaf(x) => Number(Numeric(x).value)
  }

  /** No volatile key is passed on the way. */
  predicate Visible(c: Config, loc: Loc) {
    forall s :: s in loc && s.Key? ==> s.k !in c.volatileKeys
  }

  ghost predicate SeenAlike(c: Config, a: Json, b: Json) {
    forall loc :: Visible(c, loc) ==> Observe(c, a, loc) == Observe(c, b, loc)
  }

  lemma ObserveUnder(c: Config, v: Json, step: Step, loc: Loc)
    requires HasStep(v, step)
    ensures Observe(c, v, [step] + loc) == Observe(c, Child(v, step), loc)
  {
    assert ([step] + loc)[1..] == loc;
  }

  lemma SeenAlikeInside(c: Config, a: Json, b: Json, step: Step)
    requires SeenAlike(c, a, b) && HasStep(a, step) && HasStep(b, step)
    requires step.Key? ==> step.k !in c.volatileKeys
    ensures SeenAlike(c, Child(a, step), Child(b, step))
  {
    forall loc | Visible(c, loc) ensures Observe(c, Child(a, step), loc) == Observe(c, Child(b, step), loc) {
      assert Visible(c, [step] + loc);
      ObserveUnder(c, a, step, loc);
      ObserveUnder(c, b, step, loc);
    }
  }

  lemma {:induction false} SeenAlikeNormalizes(c: Config, a: Json, b: Json, key: string)
    requires SeenAlike(c, a, b)
    ensures PyEq(Normalize(c, a, key), Normalize(c, b, key))
    decreases a
  {
    assert Visible(c, []) && Observe(c, a, []) == Observe(c, b, []);
    match a
    case Leaf(_) =>
    case Arr(items) =>
      forall i | 0 <= i < |items| ensures PyEq(Normalize(c, items[i], key), Normalize(c, b.items[i], key)) {
        SeenAlikeInside(c, a, b, Index(i));
        SeenAlikeNormalizes(c, items[i], b.items[i], key);
      }
    case Obj(fields) =>
      forall k | k in fields ensures PyEq(Normalize(c, fields[k], k), Normalize(c, b.fields[k], k)) {
        if k !in c.volatileKeys {
          SeenAlikeInside(c, a, b, Key(k));
          SeenAlikeNormalizes(c, fields[k], b.fields[k], k);
        }
      }
  }

  lemma NormalizedRootsAlike(c: Config, a: Json, b: Json, key: string)
    requires key !in c.volatileKeys && PyEq(Normalize(c, a, key), Normalize(c, b, key))
    ensures Observe(c, a, []) == Observe(c, b, [])
  {
    match a {
      case Obj(fields) => assert Normalize(c, a, key).fields.Keys == fields.Keys;
      case _ =>
    }
    match b {
      case Obj(fields) => assert Normalize(c, b, key).fields.Keys == fields.Keys;
      case _ =>
    }
  }

  lemma {:induction false} NormalizedSeenAlike(c: Config, a: Json, b: Json, key: string, loc: Loc)
    requires key !in c.volatileKeys && PyEq(Normalize(c, a, key), Normalize(c, b, key)) && Visible(c, loc)
    ensures Observe(c, a, loc) == Observe(c, b, loc)
    decreases |loc|
  {
    if loc == [] {
      NormalizedRootsAlike(c, a, b, key);
    } else {
      var step, rest := loc[0], loc[1..];
      assert loc == [step] + rest && step in loc && Visible(c, rest);
      PyEqReflects(Normalize(c, a, key), Normalize(c, b, key), step);
      if HasStep(a, step) {
        ObserveUnder(c, a, step, rest);
        ObserveUnder(c, b, step, rest);
        NormalizedSeenAlike(c, Child(a, step), Child(b, step), if step.Key? then step.k else key, rest);
      }
    }
  }

  /** Two values normalise alike exactly when they look alike at every location that no volatile key leads to. */
  lemma NormalizeForgetsExactlyVolatile(c: Config, a: Json, b: Json, key: string)
    requires key !in c.volatileKeys
    ensures PyEq(Normalize(c, a, key), Normalize(c, b, key)) <==> SeenAlike(c, a, b)
  {
    if SeenAlike(c, a, b) {
      SeenAlikeNormalizes(c, a, b, key);
    }
    if PyEq(Normalize(c, a, key), Normalize(c, b, key)) {
      forall loc | Visible(c, loc) ensures Observe(c, a, loc) == Observe(c, b, loc) {
        NormalizedSeenAlike(c, a, b, key, loc);
      }
    }
  }

  /* ---- The comparison ---- */

  const LIMIT := 80

  /** `guards` are the guardrail findings of the two snapshots, which look at each snapshot alone. */
  method CompareSnapshots(c: Config, before: Json, after: Json, guards: seq<Finding>)
    returns (pass: bool, findings: seq<Finding>)
    requires "" !in c.volatileKeys
    ensures pass <==> findings == []
    ensures pass <==> guards == [] && SeenAlike(c, before, after)
    ensures guards <= findings
    ensures Tells(Normalize(c, before, ""), Normalize(c, after, ""), "$", 80, findings[|guards|..])
    ensures ListsFirst(c, Normalize(c, before, ""), Normalize(c, after, ""), "$", 80, findings[|guards|..])
  {
    var x, y := Normalize(c, before, ""), Normalize(c, after, "");
    var diffs := NormalizedDiffs(c, x, y, "$", LIMIT);
    ListedIsSoundAndComplete(c, x, y, "$", LIMIT);
    ListedAreFirst(c, x, y, "$", LIMIT);
    NormalizeForgetsExactlyVolatile(c, before, after, "");
    findings := guards + diffs;
    assert findings[|guards|..] == diffs;
    pass := findings == [];
  }
}
