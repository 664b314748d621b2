/** For which alphabets of keys printed catalogues can be told apart. */
module YamlAlphabets {
  import opened Yaml
  import opened YamlReader

  /* ---- Keys that forge an indentation ---- */

  /** The text `r`, indented by m steps, is a key, and on its own it begins a line too: it is a key itself, or together
      with its colon it reads as a whole line holding a scalar. */
  ghost predicate Shifted(keys: Keys, m: nat, r: string) {
    m >= 1 && keys(Pad(2 * m) + r) && (keys(r) || exists h, v :: WholeLine(keys, r, h, v))
  }

  ghost predicate WholeLine(keys: Keys, r: string, h: Head, v: Value) {
    HeadOk(keys, h) && v.Leaf? && r + ":" == HeadText(h) + " " + Inline(v)
  }

  ghost predicate Shifts(keys: Keys) {
    exists m, r :: Shifted(keys, m, r)
  }

  /** Taking the indentation off the head of a block. */
  lemma Unindent(key: string, n: nat, text: string)
    requires text != "" && key + ":" == Pad(n) + text
    ensures |key| >= n && key == Pad(n) + key[n..] && key[n..] + ":" == text
  {
    var line := Pad(n) + text;
    assert line[|line| - 1] == text[|text| - 1];
    assert text == line[n..] == (key + ":")[n..] == key[n..] + ":";
    assert key == line[..|key|] == Pad(n) + text[..|text| - 1];
  }

  lemma OpensAsOpens(key: string, n: nat, h: Head)
    requires key + ":" == Pad(n) + HeadText(h)
    ensures h.Key? && key == Pad(n) + h.key
  {
    Unindent(key, n, HeadText(h));
    assert (key[n..] + ":")[|key| - n] == ':';
    assert HeadText(h)[..|HeadText(h)| - 1] == key[n..];
  }

  lemma OpensTwice(keys: Keys, h: Head, h': Head, c: nat, d: nat)
    requires HeadOk(keys, h) && HeadOk(keys, h') && c < d && c % 2 == 0 && d % 2 == 0
    requires Pad(c) + HeadText(h) == Pad(d) + HeadText(h')
    ensures Shifts(keys)
  {
    var text := HeadText(h);
    Unpad(c, d, text, HeadText(h'));
    assert text[0] == ' ';
    OpensAsOpens(h.key, d - c, h');
    assert Shifted(keys, (d - c) / 2, h'.key);
  }

  lemma Unpad(c: nat, d: nat, a: string, b: string)
    requires c <= d && Pad(c) + a == Pad(d) + b
    ensures a == Pad(d - c) + b
  {
    assert a == (Pad(c) + a)[c..] && (Pad(d) + b)[c..] == Pad(d - c) + b;
  }

  /** Two ways to read a line with a scalar agree on where the scalar is. */
  lemma SamePrefix(p: string, v: Value, p': string, v': Value)
    requires !IsBlock(v) && !IsBlock(v') && p + " " + Inline(v) == p' + " " + Inline(v')
    ensures p == p'
  {
    TokenStartAt(p + " ", v);
    TokenStartAt(p' + " ", v');
    var line := p + " " + Inline(v);
    assert |p| == |p'| && line[..|p|] == p && (p' + " " + Inline(v'))[..|p'|] == p';
  }

  lemma Regroup(a: string, b: string, c: string, d: string)
    ensures a + (b + (c + d)) == a + b + c + d
  {
  }

  lemma SingleText(c: nat, h: Head, v: Value)
    requires !IsBlock(v)
    ensures LineText(c, h, v) == Pad(c) + HeadText(h) + " " + Inline(v)
  {
    Regroup(Pad(c), HeadText(h), " ", Inline(v));
  }

  lemma SingleTwice(keys: Keys, h: Head, v: Value, h': Head, v': Value, c: nat, d: nat)
    requires HeadOk(keys, h) && HeadOk(keys, h') && c < d && c % 2 == 0 && d % 2 == 0
    requires !IsBlock(v) && !IsBlock(v') && LineText(c, h, v) == LineText(d, h', v')
    ensures Shifts(keys)
  {
    SingleText(c, h, v);
    SingleText(d, h', v');
    SamePrefix(Pad(c) + HeadText(h), v, Pad(d) + HeadText(h'), v');
    OpensTwice(keys, h, h', c, d);
  }

  /** Text that ends with a colon and reads as a line with a scalar. */
  lemma OpensAsSingle(key: string, n: nat, h: Head, v: Value)
    requires !IsBlock(v) && key + ":" == Pad(n) + (HeadText(h) + After(v))
    ensures v.Leaf? && |key| >= n && key == Pad(n) + key[n..] && key[n..] + ":" == HeadText(h) + " " + Inline(v)
  {
    Unindent(key, n, HeadText(h) + After(v));
    Regroup("", HeadText(h), " ", Inline(v));
    InlineNotEmpty(v);
    EndsAlike(key[n..], ":", HeadText(h) + " ", Inline(v));
  }

  lemma EndsAlike(a: string, b: string, a': string, b': string)
    requires a + b == a' + b' && b != "" && b' != ""
    ensures b[|b| - 1] == b'[|b'| - 1]
  {
    assert b[|b| - 1] == (a + b)[|a + b| - 1] && b'[|b'| - 1] == (a' + b')[|a' + b'| - 1];
  }

  lemma OpensAndSingle(keys: Keys, h: Head, h': Head, v': Value, c: nat, d: nat)
    requires HeadOk(keys, h) && HeadOk(keys, h') && c < d && c % 2 == 0 && d % 2 == 0
    requires !IsBlock(v') && Pad(c) + HeadText(h) == LineText(d, h', v')
    ensures Shifts(keys)
  {
    var text := HeadText(h);
    Unpad(c, d, text, HeadText(h') + After(v'));
    assert text[0] == ' ';
    OpensAsSingle(h.key, d - c, h', v');
    assert WholeLine(keys, h.key[d - c..], h', v');
    assert Shifted(keys, (d - c) / 2, h.key[d - c..]);
  }

  lemma BlockTwice(keys: Keys, line: string, c: nat, d: nat)
    requires c < d && c % 2 == 0 && d % 2 == 0 && BlockLine(keys, line, c) && (BlockLine(keys, line, d) || InlineLine(keys, line, d))
    ensures Shifts(keys)
  {
    var h :| HeadOk(keys, h) && line == Pad(c) + HeadText(h);
    if BlockLine(keys, line, d) {
      var h' :| HeadOk(keys, h') && line == Pad(d) + HeadText(h');
      OpensTwice(keys, h, h', c, d);
    } else {
      var h', v' :| HeadOk(keys, h') && !IsBlock(v') && line == LineText(d, h', v');
      OpensAndSingle(keys, h, h', v', c, d);
    }
  }

  lemma InlineTwice(keys: Keys, line: string, c: nat, d: nat)
    requires c < d && c % 2 == 0 && d % 2 == 0 && InlineLine(keys, line, c) && InlineLine(keys, line, d)
    ensures Shifts(keys)
  {
    var h, v :| HeadOk(keys, h) && !IsBlock(v) && line == LineText(c, h, v);
    var h', v' :| HeadOk(keys, h') && !IsBlock(v') && line == LineText(d, h', v');
    SingleTwice(keys, h, v, h', v', c, d);
  }

  ghost predicate Fits(keys: Keys, line: string, opens: bool, c: nat) {
    c % 2 == 0 && if opens then BlockLine(keys, line, c) else InlineLine(keys, line, c)
  }

  lemma FitsTwice(keys: Keys, line: string, opens: bool, opens': bool, c: nat, d: nat)
    requires c < d && Fits(keys, line, opens, c) && Fits(keys, line, opens', d) && (opens' ==> opens)
    ensures Shifts(keys)
  {
    if opens {
      BlockTwice(keys, line, c, d);
    } else {
      InlineTwice(keys, line, c, d);
    }
  }

  /** How a line may be laid out at a column, kept abstract where its text does not matter. */
  type Fitting = (string, bool, nat) -> bool

  ghost function FitsOver(keys: Keys): Fitting {
    (line: string, opens: bool, c: nat) => Fits(keys, line, opens, c)
  }

  ghost predicate Step(fits: Fitting, starts: Starting, lines: seq<string>, opens: bool, c: nat) {
    && lines != [] && fits(lines[0], opens, c)
    && if opens then starts(lines[1..], c + 2) else Ends(starts, lines[1..], c)
  }

  ghost predicate Unfolds(fits: Fitting, starts: Starting) {
    forall lines, c: nat {:trigger Step(fits, starts, lines, true, c)} ::
      starts(lines, c) ==> Step(fits, starts, lines, true, c) || Step(fits, starts, lines, false, c)
  }

  lemma StartsUnfold(keys: Keys)
    ensures Unfolds(FitsOver(keys), StartsOver(keys))
  {
    var fits, starts := FitsOver(keys), StartsOver(keys);
    forall lines, c: nat | starts(lines, c) ensures Step(fits, starts, lines, true, c) || Step(fits, starts, lines, false, c) {
      StepOver(keys, lines, c);
    }
  }

  lemma StepOver(keys: Keys, lines: seq<string>, c: nat)
    requires Starts(keys, lines, c)
    ensures var fits, starts := FitsOver(keys), StartsOver(keys);
            Step(fits, starts, lines, true, c) || Step(fits, starts, lines, false, c)
  {
    if !(BlockLine(keys, lines[0], c) && Starts(keys, lines[1..], c + 2)) {
      assert Fits(keys, lines[0], false, c) && EndsAt(keys, lines[1..], c);
      if lines[1..] != [] {
        var d: nat :| d <= c && Starts(keys, lines[1..], d);
        assert StartsOver(keys)(lines[1..], d);
      }
    }
  }

  /** Lines that start at two columns lead to one line that fits at two columns, as the head of a block at the left one
      unless at neither. */
  lemma {:induction false} FitAtTwoColumns(fits: Fitting, starts: Starting, lines: seq<string>, c: nat, d: nat)
      returns (line: string, opens: bool, opens': bool, left: nat, right: nat)
    requires Unfolds(fits, starts) && c < d && starts(lines, c) && starts(lines, d)
    ensures left < right && fits(line, opens, left) && fits(line, opens', right) && (opens' ==> opens)
    decreases |lines|
  {
    assert Step(fits, starts, lines, true, c) || Step(fits, starts, lines, false, c);
    assert Step(fits, starts, lines, true, d) || Step(fits, starts, lines, false, d);
    if Step(fits, starts, lines, true, c) {
      line, opens, opens', left, right := lines[0], true, Step(fits, starts, lines, true, d), c, d;
    } else if Step(fits, starts, lines, false, d) {
      line, opens, opens', left, right := lines[0], false, false, c, d;
    } else {
      assert Step(fits, starts, lines[1..], true, d + 2) || Step(fits, starts, lines[1..], false, d + 2);
      var e: nat :| e <= c && starts(lines[1..], e);
      line, opens, opens', left, right := FitAtTwoColumns(fits, starts, lines[1..], e, d + 2);
    }
  }

  /** Lines that may start at two columns exist only over alphabets with a forging key. */
  lemma TwoColumnsShift(keys: Keys, lines: seq<string>, c: nat, d: nat)
    requires c < d && Starts(keys, lines, c) && Starts(keys, lines, d)
    ensures Shifts(keys)
  {
    StartsUnfold(keys);
    var line, opens, opens', left, right := FitAtTwoColumns(FitsOver(keys), StartsOver(keys), lines, c, d);
    FitsTwice(keys, line, opens, opens', left, right);
  }

  /** The column of printed lines, where there is only one. */
  ghost function ColumnOf(keys: Keys): Column {
    lines => if exists c: nat :: Starts(keys, lines, c) then var c: nat :| Starts(keys, lines, c); c else 0
  }

  lemma UnshiftedAligned(keys: Keys)
    requires !Shifts(keys)
    ensures Aligned(keys, ColumnOf(keys))
  {
    forall lines, c: nat | Starts(keys, lines, c) ensures ColumnOf(keys)(lines) == c {
      var d := ColumnOf(keys)(lines);
      assert Starts(keys, lines, d);
      if c != d {
        TwoColumnsShift(keys, lines, if c < d then c else d, if c < d then d else c);
      }
    }
  }

  /* ---- Documents that print alike ---- */

  ghost predicate Fresh(entries: seq<Entry>) {
    forall i, j :: 0 <= i < j < |entries| ==> entries[i].key != entries[j].key
  }

  /** A dictionary has every key once. */
  ghost predicate DistinctKeys(v: Value) {
    match v
    case Leaf(_) => true
    case Map(entries) =>
      Fresh(entries) && forall e :: e in entries ==> DistinctKeys(e.value)
    case List(items) => forall i :: i in items ==> DistinctKeys(i)
  }

  ghost predicate IsDocument(keys: Keys, v: Value) {
    !v.Leaf? && Over(keys, v) && DistinctKeys(v)
  }

  /** No two documents over the alphabet that differ in more than the spelling of scalars print alike. */
  ghost predicate PrintsApart(keys: Keys) {
    forall a, b :: IsDocument(keys, a) && IsDocument(keys, b) && Emit(a, 0) == Emit(b, 0) ==> Tokens(a) == Tokens(b)
  }

  ghost predicate Collide(keys: Keys, a: Value, b: Value) {
    IsDocument(keys, a) && IsDocument(keys, b) && Emit(a, 0) == Emit(b, 0) && Tokens(a) != Tokens(b)
  }

  lemma UnshiftedApart(keys: Keys)
    requires !Shifts(keys)
    ensures PrintsApart(keys)
  {
    var col := ColumnOf(keys);
    UnshiftedAligned(keys);
    forall a, b | IsDocument(keys, a) && IsDocument(keys, b) && Emit(a, 0) == Emit(b, 0) ensures Tokens(a) == Tokens(b) {
      ReadWithInverts(keys, col, a);
      ReadWithInverts(keys, col, b);
    }
  }

  /* ---- Printing the colliding documents ---- */

  function Values(entries: seq<Entry>): seq<Value> {
    if entries == [] then [] else [entries[0].value] + Values(entries[1..])
  }

  /** A dictionary, or a list of its values when h is a dash. */
  function Box(h: Head, slots: seq<Entry>): Value {
    if h.Item? then List(Values(slots)) else Map(slots)
  }

  /** How a slot of such a box begins. */
  function SlotHead(h: Head, key: string): Head {
    if h.Item? then Item else Key(key)
  }

  function SlotTexts(h: Head, slots: seq<Entry>, c: nat): seq<string> {
    if slots == [] then []
    else [LineText(c, SlotHead(h, slots[0].key), slots[0].value)] + SlotTexts(h, slots[1..], c)
  }

  predicate AllLeaves(slots: seq<Entry>) {
    forall e :: e in slots ==> e.value.Leaf?
  }

  lemma LeafLine(key: string, v: Value, c: nat)
    requires v.Leaf?
    ensures EmitEntry(key, v, c) == [LineText(c, Key(key), v)] && EmitItem(v, c) == [LineText(c, Item, v)]
  {
    UnfoldEntry(key, v, c);
    UnfoldItem(v, c);
    PadLine(c, key, v);
  }

  lemma {:induction false} SlotLines(slots: seq<Entry>, c: nat)
    requires AllLeaves(slots)
    ensures EmitEntries(slots, c) == SlotTexts(Key(""), slots, c) && EmitItems(Values(slots), c) == SlotTexts(Item, slots, c)
  {
    if slots == [] {
    } else {
      var e := slots[0];
      assert e in slots;
      LeafLine(e.key, e.value, c);
      UnfoldEntries(slots, c);
      UnfoldItems(Values(slots), c);
      assert Values(slots)[1..] == Values(slots[1..]);
      SlotLines(slots[1..], c);
    }
  }

  lemma {:induction false} SameHeads(key: string, slots: seq<Entry>, c: nat)
    ensures SlotTexts(Key(key), slots, c) == SlotTexts(Key(""), slots, c)
  {
    if slots == [] {
    } else {
      SameHeads(key, slots[1..], c);
    }
  }

  lemma BoxLines(h: Head, slots: seq<Entry>, c: nat)
    requires slots != [] && AllLeaves(slots)
    ensures IsBlock(Box(h, slots)) && Emit(Box(h, slots), c) == SlotTexts(h, slots, c)
  {
    SlotLines(slots, c);
    if h.Key? {
      SameHeads(h.key, slots, c);
    }
  }

  lemma {:induction false} LeafValues(slots: seq<Entry>)
    requires AllLeaves(slots)
    ensures forall v :: v in Values(slots) ==> v.Leaf?
  {
    if slots == [] {
    } else {
      assert slots[0] in slots;
      LeafValues(slots[1..]);
    }
  }

  lemma BoxIsDocument(keys: Keys, h: Head, slots: seq<Entry>)
    requires AllLeaves(slots) && (h.Key? ==> Fresh(slots) && forall e :: e in slots ==> keys(e.key))
    ensures IsDocument(keys, Box(h, slots))
  {
    LeafValues(slots);
  }

  lemma MapIsDocument(keys: Keys, entries: seq<Entry>)
    requires Fresh(entries) && forall e :: e in entries ==> keys(e.key) && (e.value.Leaf? || IsDocument(keys, e.value))
    ensures IsDocument(keys, Map(entries))
  {
  }

  lemma ListIsDocument(keys: Keys, items: seq<Value>)
    requires forall v :: v in items ==> v.Leaf? || IsDocument(keys, v)
    ensures IsDocument(keys, List(items))
  {
  }

  /** A value inside n one-item lists. */
  function Wrap(n: nat, v: Value): Value {
    if n == 0 then v else List([Wrap(n - 1, v)])
  }

  function Dashes(n: nat, c: nat): seq<string> {
    if n == 0 then [] else [Pad(c) + "-"] + Dashes(n - 1, c + 2)
  }

  lemma {:induction false} WrapIsDocument(keys: Keys, n: nat, v: Value)
    requires IsDocument(keys, v)
    ensures IsDocument(keys, Wrap(n, v))
  {
    if n == 0 {
    } else {
      WrapIsDocument(keys, n - 1, v);
    }
  }

  lemma OneItem(v: Value, c: nat)
    requires IsBlock(v)
    ensures Emit(List([v]), c) == [Pad(c) + "-"] + Emit(v, c + 2)
  {
    UnfoldItems([v], c);
    ItemLines(v, c);
  }

  lemma {:induction false} WrapLines(n: nat, v: Value, c: nat)
    requires IsBlock(v)
    ensures IsBlock(Wrap(n, v)) && Emit(Wrap(n, v), c) == Dashes(n, c) + Emit(v, c + 2 * n)
  {
    if n == 0 {
      assert [] + Emit(v, c) == Emit(v, c);
    } else {
      WrapLines(n - 1, v, c + 2);
      OneItem(Wrap(n - 1, v), c);
      AppendTwice([Pad(c) + "-"], Dashes(n - 1, c + 2), Emit(v, c + 2 * n));
    }
  }

  lemma BlockEntry(key: string, v: Value)
    requires IsBlock(v)
    ensures EmitEntry(key, v, 0) == [HeadText(Key(key))] + Emit(v, 2)
  {
    EntryLines(key, v, 0);
    assert Pad(0) + key + ":" == HeadText(Key(key));
  }

  lemma SingleEntry(e: Entry, c: nat)
    ensures EmitEntries([e], c) == EmitEntry(e.key, e.value, c)
  {
    UnfoldEntries([e], c);
    assert [e][1..] == [];
  }

  lemma PairOfEntries(e: Entry, f: Entry, c: nat)
    ensures EmitEntries([e, f], c) == EmitEntry(e.key, e.value, c) + EmitEntry(f.key, f.value, c)
  {
    UnfoldEntries([e, f], c);
    assert [e, f][1..] == [f];
    SingleEntry(f, c);
  }

  /** A one-entry and a two-entry dictionary around blocks. */
  lemma OneEntry(key: string, v: Value)
    requires IsBlock(v)
    ensures Emit(Map([Entry(key, v)]), 0) == [HeadText(Key(key))] + Emit(v, 2)
  {
    SingleEntry(Entry(key, v), 0);
    BlockEntry(key, v);
  }

  lemma TwoEntries(key: string, v: Value, key': string, v': Value)
    requires IsBlock(v)
    ensures Emit(Map([Entry(key, v), Entry(key', v')]), 0) == [HeadText(Key(key))] + (Emit(v, 2) + EmitEntry(key', v', 0))
  {
    PairOfEntries(Entry(key, v), Entry(key', v'), 0);
    BlockEntry(key, v);
    AppendTwice([HeadText(Key(key))], Emit(v, 2), EmitEntry(key', v', 0));
  }

  lemma OneIsNotTwo(e: Entry, f: Entry, g: Entry)
    ensures Tokens(Map([e])) != Tokens(Map([f, g]))
  {
    assert |Tokens(Map([e])).entries| == 1 && |Tokens(Map([f, g])).entries| == 2;
  }

  const X: Value := Leaf(Null)

  /* ---- Forging keys collide ---- */

  /** A key that is another key indented: its line passes for an entry of a dictionary further right. */
  lemma IndentedKeyCollides(keys: Keys, m: nat, r: string) returns (a: Value, b: Value)
    requires m >= 1 && keys(Pad(2 * m) + r) && keys(r)
    ensures Collide(keys, a, b)
  {
    var k := Pad(2 * m) + r;
    var both, one := [Entry(k, X), Entry(r, X)], [Entry(k, X)];
    var inner, inner' := Wrap(m - 1, Map(both)), Wrap(m - 1, Map(one));
    a, b := Map([Entry(r, inner)]), Map([Entry(r, inner'), Entry(k, X)]);
    MapIsDocument(keys, both);
    MapIsDocument(keys, one);
    WrapIsDocument(keys, m - 1, Map(both));
    WrapIsDocument(keys, m - 1, Map(one));
    MapIsDocument(keys, a.entries);
    MapIsDocument(keys, b.entries);
    OneIsNotTwo(a.entries[0], b.entries[0], b.entries[1]);
    IndentedKeyLines(m, r);
  }

  lemma IndentedKeyLines(m: nat, r: string)
    requires m >= 1
    ensures var k := Pad(2 * m) + r;
            Emit(Map([Entry(r, Wrap(m - 1, Map([Entry(k, X), Entry(r, X)])))]), 0)
            == Emit(Map([Entry(r, Wrap(m - 1, Map([Entry(k, X)]))), Entry(k, X)]), 0)
  {
    var k := Pad(2 * m) + r;
    var both, one := Map([Entry(k, X), Entry(r, X)]), Map([Entry(k, X)]);
    var dashes, first, last := Dashes(m - 1, 2), LineText(2 * m, Key(k), X), LineText(2 * m, Key(r), X);
    WrapLines(m - 1, both, 2);
    WrapLines(m - 1, one, 2);
    OneEntry(r, Wrap(m - 1, both));
    TwoEntries(r, Wrap(m - 1, one), k, X);
    TwoLeaves(2 * m, k, r);
    LeafLine(k, X, 0);
    IndentedText(m, r);
    AppendTwice(dashes, [first], [last]);
  }

  lemma IndentedText(m: nat, r: string)
    ensures LineText(0, Key(Pad(2 * m) + r), X) == LineText(2 * m, Key(r), X)
  {
    var k := Pad(2 * m) + r;
    assert LineText(0, Key(k), X) == HeadText(Key(k)) + After(X);
    Regroup("", Pad(2 * m), HeadText(Key(r)), After(X));
    assert HeadText(Key(k)) == Pad(2 * m) + HeadText(Key(r));
  }

  lemma TwoLeaves(c: nat, k: string, r: string)
    ensures Emit(Map([Entry(k, X)]), c) == [LineText(c, Key(k), X)]
    ensures Emit(Map([Entry(k, X), Entry(r, X)]), c) == [LineText(c, Key(k), X)] + [LineText(c, Key(r), X)]
  {
    SingleEntry(Entry(k, X), c);
    PairOfEntries(Entry(k, X), Entry(r, X), c);
    LeafLine(k, X, c);
    LeafLine(r, X, c);
  }

  function KeyOf(h: Head): string {
    if h.Item? then "" else h.key
  }

  /** The head of a block that passes for a whole line further right. */
  lemma WholeLineText(m: nat, r: string, h: Head, v: Value)
    requires v.Leaf? && r + ":" == HeadText(h) + " " + Inline(v)
    ensures HeadText(Key(Pad(2 * m) + r)) == LineText(2 * m, h, v)
  {
    assert Pad(2 * m) + r + ":" == Pad(2 * m) + (r + ":");
    Regroup("", HeadText(h), " ", Inline(v));
    assert r + ":" == HeadText(h) + After(v);
  }

  lemma PairLines(h: Head, e: string, v: Value, c: nat)
    requires v.Leaf?
    ensures var first, line := LineText(c, SlotHead(h, e), X), LineText(c, h, v);
            var one, two, swapped := [Entry(e, X)], [Entry(e, X), Entry(KeyOf(h), v)], [Entry(KeyOf(h), v), Entry(e, X)];
            && IsBlock(Box(h, one)) && IsBlock(Box(h, two)) && IsBlock(Box(h, swapped))
            && Emit(Box(h, one), c) == [first]
            && Emit(Box(h, two), c) == [first] + [line]
            && Emit(Box(h, swapped), c) == [line] + [first]
  {
    var a, b := Entry(e, X), Entry(KeyOf(h), v);
    BoxLines(h, [a], c);
    BoxLines(h, [a, b], c);
    BoxLines(h, [b, a], c);
    assert [a, b][1..] == [b] && [b, a][1..] == [a];
    assert SlotHead(h, KeyOf(h)) == h;
  }

  lemma {:induction false} ValuesCount(slots: seq<Entry>)
    ensures |Values(slots)| == |slots|
  {
    if slots == [] {
    } else {
      ValuesCount(slots[1..]);
    }
  }

  lemma BoxesDiffer(h: Head, slots: seq<Entry>, slots': seq<Entry>)
    requires |slots| != |slots'|
    ensures Tokens(Box(h, slots)) != Tokens(Box(h, slots'))
  {
    ValuesCount(slots);
    ValuesCount(slots');
    match h
    case Item => assert |Tokens(Box(h, slots)).items| == |slots| && |Tokens(Box(h, slots')).items| == |slots'|;
    case Key(_) => assert |Tokens(Box(h, slots)).entries| == |slots| && |Tokens(Box(h, slots')).entries| == |slots'|;
  }

  /** One step to the right: the head of a block and the line of a slot are the same text, so they may be exchanged. */
  lemma WholeLineNear(keys: Keys, r: string, h: Head, v: Value, top: string) returns (a: Value, b: Value)
    requires keys(Pad(2) + r) && WholeLine(keys, r, h, v) && keys(top)
    requires top != Pad(2) + r && (h.Key? ==> h.key != Pad(2) + r)
    ensures Collide(keys, a, b)
  {
    var k := Pad(2) + r;
    var one, slot := Entry(k, X), Entry(KeyOf(h), v);
    var single, before, after := Box(h, [one]), Box(h, [one, slot]), Box(h, [slot, one]);
    a, b := Map([Entry(top, single), Entry(k, after)]), Map([Entry(top, before), Entry(k, single)]);
    BoxIsDocument(keys, h, [one]);
    BoxIsDocument(keys, h, [one, slot]);
    BoxIsDocument(keys, h, [slot, one]);
    MapIsDocument(keys, a.entries);
    MapIsDocument(keys, b.entries);
    BoxesDiffer(h, [one], [one, slot]);
    assert Tokens(a).entries[0].value == Tokens(single) && Tokens(b).entries[0].value == Tokens(before);
    NearLines(r, h, v, top);
  }

  lemma NearLines(r: string, h: Head, v: Value, top: string)
    requires v.Leaf? && r + ":" == HeadText(h) + " " + Inline(v)
    ensures var k := Pad(2) + r;
            var one, slot := Entry(k, X), Entry(KeyOf(h), v);
            Emit(Map([Entry(top, Box(h, [one])), Entry(k, Box(h, [slot, one]))]), 0)
            == Emit(Map([Entry(top, Box(h, [one, slot])), Entry(k, Box(h, [one]))]), 0)
  {
    var k := Pad(2) + r;
    var one, slot := Entry(k, X), Entry(KeyOf(h), v);
    PairLines(h, k, v, 2);
    WholeLineText(1, r, h, v);
    Exchange(top, k, Box(h, [one]), Box(h, [one, slot]), Box(h, [slot, one]), LineText(2, SlotHead(h, k), X));
  }

  lemma Exchange(top: string, k: string, single: Value, before: Value, after: Value, first: string)
    requires IsBlock(single) && IsBlock(before) && IsBlock(after)
    requires Emit(single, 2) == [first]
    requires Emit(before, 2) == [first] + [HeadText(Key(k))] && Emit(after, 2) == [HeadText(Key(k))] + [first]
    ensures Emit(Map([Entry(top, single), Entry(k, after)]), 0) == Emit(Map([Entry(top, before), Entry(k, single)]), 0)
  {
    var line := [HeadText(Key(k))];
    TwoEntries(top, single, k, after);
    TwoEntries(top, before, k, single);
    BlockEntry(k, after);
    BlockEntry(k, single);
    assert [first] + (line + (line + [first])) == ([first] + line) + (line + [first]);
  }

  lemma LastItem(c: nat)
    ensures EmitItems([X], c) == [LineText(c, Item, X)]
  {
    UnfoldItems([X], c);
    assert [X][1..] == [];
    LeafLine("", X, c);
  }

  lemma TwoItems(v: Value, c: nat)
    requires IsBlock(v)
    ensures Emit(List([v, X]), c) == [Pad(c) + "-"] + (Emit(v, c + 2) + [LineText(c, Item, X)])
  {
    UnfoldItems([v, X], c);
    assert [v, X][1..] == [X];
    LastItem(c);
    ItemLines(v, c);
    AppendTwice([Pad(c) + "-"], Emit(v, c + 2), [LineText(c, Item, X)]);
  }

  /** Several steps to the right: it passes for the last slot of a box inside lists. */
  lemma WholeLineFar(keys: Keys, m: nat, r: string, h: Head, v: Value, top: string) returns (a: Value, b: Value)
    requires m > 1 && keys(Pad(2 * m) + r) && WholeLine(keys, r, h, v) && keys(top)
    requires top != Pad(2 * m) + r && (h.Key? ==> h.key != Pad(2 * m) + r)
    ensures Collide(keys, a, b)
  {
    var k := Pad(2 * m) + r;
    var both, first := [Entry(k, X), Entry(KeyOf(h), v)], [Entry(k, X)];
    var inner, inner' := Wrap(m - 2, Box(h, both)), Wrap(m - 2, Box(h, first));
    a, b := Map([Entry(top, List([inner, X]))]), Map([Entry(top, List([inner'])), Entry(k, List([X]))]);
    BoxIsDocument(keys, h, both);
    BoxIsDocument(keys, h, first);
    WrapIsDocument(keys, m - 2, Box(h, both));
    WrapIsDocument(keys, m - 2, Box(h, first));
    FarDocuments(keys, top, k, inner, inner');
    OneIsNotTwo(a.entries[0], b.entries[0], b.entries[1]);
    FarLines(m, r, h, v, top);
  }

  lemma FarDocuments(keys: Keys, top: string, k: string, inner: Value, inner': Value)
    requires keys(top) && keys(k) && top != k && IsDocument(keys, inner) && IsDocument(keys, inner')
    ensures IsDocument(keys, Map([Entry(top, List([inner, X]))]))
    ensures IsDocument(keys, Map([Entry(top, List([inner'])), Entry(k, List([X]))]))
  {
    ListIsDocument(keys, [inner, X]);
    ListIsDocument(keys, [inner']);
    ListIsDocument(keys, [X]);
    MapIsDocument(keys, [Entry(top, List([inner, X]))]);
    MapIsDocument(keys, [Entry(top, List([inner'])), Entry(k, List([X]))]);
  }

  lemma FarLines(m: nat, r: string, h: Head, v: Value, top: string)
    requires m > 1 && v.Leaf? && r + ":" == HeadText(h) + " " + Inline(v)
    ensures var k := Pad(2 * m) + r;
            var inner, inner' := Wrap(m - 2, Box(h, [Entry(k, X), Entry(KeyOf(h), v)])), Wrap(m - 2, Box(h, [Entry(k, X)]));
            Emit(Map([Entry(top, List([inner, X]))]), 0) == Emit(Map([Entry(top, List([inner'])), Entry(k, List([X]))]), 0)
  {
    var k := Pad(2 * m) + r;
    PairLines(h, k, v, 2 * m);
    WholeLineText(m, r, h, v);
    FarExchange(m - 2, top, k, Box(h, [Entry(k, X)]), Box(h, [Entry(k, X), Entry(KeyOf(h), v)]));
  }

  lemma FarExchange(n: nat, top: string, k: string, first: Value, both: Value)
    requires IsBlock(first) && IsBlock(both) && Emit(both, 4 + 2 * n) == Emit(first, 4 + 2 * n) + [HeadText(Key(k))]
    ensures Emit(Map([Entry(top, List([Wrap(n, both), X]))]), 0)
            == Emit(Map([Entry(top, List([Wrap(n, first)])), Entry(k, List([X]))]), 0)
  {
    FarLeft(n, top, both);
    FarRight(n, top, first, k);
    FarText([Pad(2) + "-"], Dashes(n, 4), Emit(first, 4 + 2 * n), [HeadText(Key(k))], [LineText(2, Item, X)]);
  }

  lemma FarLeft(n: nat, top: string, v: Value)
    requires IsBlock(v)
    ensures Emit(Map([Entry(top, List([Wrap(n, v), X]))]), 0)
            == [HeadText(Key(top))] + ([Pad(2) + "-"] + ((Dashes(n, 4) + Emit(v, 4 + 2 * n)) + [LineText(2, Item, X)]))
  {
    WrapLines(n, v, 4);
    TwoItems(Wrap(n, v), 2);
    OneEntry(top, List([Wrap(n, v), X]));
  }

  lemma FarRight(n: nat, top: string, v: Value, k: string)
    requires IsBlock(v)
    ensures Emit(Map([Entry(top, List([Wrap(n, v)])), Entry(k, List([X]))]), 0)
            == [HeadText(Key(top))]
               + (([Pad(2) + "-"] + (Dashes(n, 4) + Emit(v, 4 + 2 * n))) + ([HeadText(Key(k))] + [LineText(2, Item, X)]))
  {
    WrapLines(n, v, 4);
    OneItem(Wrap(n, v), 2);
    TwoEntries(top, List([Wrap(n, v)]), k, List([X]));
    BlockEntry(k, List([X]));
    LastItem(2);
  }

  lemma FarText(a: seq<string>, b: seq<string>, c: seq<string>, d: seq<string>, e: seq<string>)
    ensures a + ((b + (c + d)) + e) == (a + (b + c)) + (d + e)
  {
  }

  /** Some documents over an alphabet of at least two keys print alike exactly when one of the keys forges an
      indentation. */
  lemma PrintsApartIff(keys: Keys, p: string, q: string)
    requires keys(p) && keys(q) && p != q
    ensures PrintsApart(keys) <==> !Shifts(keys)
  {
    if !Shifts(keys) {
      UnshiftedApart(keys);
    } else {
      var m, r :| Shifted(keys, m, r);
      var a, b := ShiftedCollides(keys, m, r, p, q);
      assert Collide(keys, a, b);
    }
  }

  lemma ShiftedCollides(keys: Keys, m: nat, r: string, p: string, q: string) returns (a: Value, b: Value)
    requires Shifted(keys, m, r) && keys(p) && keys(q) && p != q
    ensures Collide(keys, a, b)
  {
    if keys(r) {
      a, b := IndentedKeyCollides(keys, m, r);
    } else {
      var h, v :| WholeLine(keys, r, h, v);
      var k := Pad(2 * m) + r;
      var top := if p == k then q else p;
      WholeLineText(m, r, h, v);
      assert h.Key? ==> |HeadText(Key(k))| > |h.key| + 1;
      if m == 1 {
        a, b := WholeLineNear(keys, r, h, v, top);
      } else {
        a, b := WholeLineFar(keys, m, r, h, v, top);
      }
    }
  }
}
