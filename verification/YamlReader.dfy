/** An indentation reader for printed catalogues, and the proof that it inverts the printer. */
module YamlReader {
  import opened Wrappers
  import opened Yaml

  /** What a printed document determines: shape, key order and scalar tokens. */
  datatype Tree = Token(text: string) | TMap(entries: seq<TEntry>) | TList(items: seq<Tree>)

  datatype TEntry = TEntry(key: string, value: Tree)

  function Tokens(v: Value): Tree {
    match v
    case Leaf(x) => Token(ScalarToken(x))
    case Map(entries) => TMap(seq(|entries|, i requires 0 <= i < |entries| => TEntry(entries[i].key, Tokens(entries[i].value))))
    case List(items) => TList(seq(|items|, i requires 0 <= i < |items| => Tokens(items[i])))
  }

  /* ---- One line ---- */

  /** The position of the last quotation mark that no backslash precedes. */
  function LastBareQuote(s: string): (n: nat)
    ensures n <= |s|
  {
    if s == "" then 0
    else if s[|s| - 1] == '"' && (|s| == 1 || s[|s| - 2] != '\\') then |s| - 1
    else LastBareQuote(s[..|s| - 1])
  }

  function AfterLastSpace(s: string): (n: nat)
    ensures n <= |s|
  {
    if s == "" then 0 else if s[|s| - 1] == ' ' then |s| else AfterLastSpace(s[..|s| - 1])
  }

  /** Where the scalar at the end of a line starts: at its opening quote, or after the last space. */
  function TokenStart(line: string): (n: nat)
    ensures n <= |line|
  {
    if line != "" && line[|line| - 1] == '"' then LastBareQuote(line[..|line| - 1]) else AfterLastSpace(line)
  }

  /** What a line begins: an item of a list or an entry of a dictionary. */
  datatype Head = Item | Key(key: string)

  function HeadText(h: Head): (text: string)
    ensures text != ""
  {
    match h
    case Item => "-"
    case Key(key) => key + ":"
  }

  datatype Line = Opens(head: Head) | Single(head: Head, token: string) | Strange

  /** Reads a line without its indentation; `deeper` says that the next line lies further right. */
  function ReadLine(content: string, deeper: bool): Line {
    if deeper then
      if content == "-" then Opens(Item)
      else if content != "" && content[|content| - 1] == ':' then Opens(Key(content[..|content| - 1]))
      else Strange
    else
      var n := TokenStart(content);
      var head, token := content[..n], content[n..];
      if head == "- " then Single(Item, token)
      else if n >= 2 && head[n - 2..] == ": " then Single(Key(head[..n - 2]), token)
      else Strange
  }

  function ReadInline(text: string): Tree {
    if text == "{}" then TMap([]) else if text == "[]" then TList([]) else Token(text)
  }

  /* ---- The reader ---- */

  /** The column at which some lines start. */
  type Column = seq<string> -> nat

  datatype Read<T> = NoParse | Parsed(value: T, rest: seq<string>)

  function LineAt(col: Column, lines: seq<string>, indent: nat): Line
    requires lines != []
  {
    if |lines[0]| < indent then Strange
    else ReadLine(lines[0][indent..], |lines| > 1 && col(lines[1..]) > indent)
  }

  /** A block whose lines start at column `indent`. */
  function ReadBlock(col: Column, lines: seq<string>, indent: nat): (r: Read<Tree>)
    ensures r.Parsed? ==> |r.rest| <= |lines|
    decreases |lines|, 1
  {
    if lines == [] || col(lines) != indent then NoParse
    else
      var line := LineAt(col, lines, indent);
      if line.Strange? then NoParse
      else if line.head.Item? then
        match ReadItems(col, lines, indent)
        case NoParse => NoParse
        case Parsed(items, rest) => Parsed(TList(items), rest)
      else
        match ReadEntries(col, lines, indent)
        case NoParse => NoParse
        case Parsed(entries, rest) => Parsed(TMap(entries), rest)
  }

  function ReadEntries(col: Column, lines: seq<string>, indent: nat): (r: Read<seq<TEntry>>)
    ensures r.Parsed? ==> |r.rest| <= |lines|
    decreases |lines|, 0
  {
    if lines == [] || col(lines) != indent then Parsed([], lines)
    else
      var line := LineAt(col, lines, indent);
      if line.Strange? || line.head.Item? then NoParse
      else
        var value := if line.Opens? then ReadBlock(col, lines[1..], indent + 2) else Parsed(ReadInline(line.token), lines[1..]);
        match value
        case NoParse => NoParse
        case Parsed(v, rest) =>
          match ReadEntries(col, rest, indent)
          case NoParse => NoParse
          case Parsed(more, rest') => Parsed([TEntry(line.head.key, v)] + more, rest')
  }

  function ReadItems(col: Column, lines: seq<string>, indent: nat): (r: Read<seq<Tree>>)
    ensures r.Parsed? ==> |r.rest| <= |lines|
    decreases |lines|, 0
  {
    if lines == [] || col(lines) != indent then Parsed([], lines)
    else
      var line := LineAt(col, lines, indent);
      if line.Strange? || line.head.Key? then NoParse
      else
        var value := if line.Opens? then ReadBlock(col, lines[1..], indent + 2) else Parsed(ReadInline(line.token), lines[1..]);
        match value
        case NoParse => NoParse
        case Parsed(v, rest) =>
          match ReadItems(col, rest, indent)
          case NoParse => NoParse
          case Parsed(more, rest') => Parsed([v] + more, rest')
  }

  /** A whole document: an empty container alone on its line, or one block. */
  function ReadWith(col: Column, lines: seq<string>): Option<Tree> {
    if lines == ["{}"] then Some(TMap([]))
    else if lines == ["[]"] then Some(TList([]))
    else match ReadBlock(col, lines, 0)
      case Parsed(v, rest) => if rest == [] then Some(v) else None
      case NoParse => None
  }

  function Indent(line: string): (n: nat)
    ensures n <= |line|
  {
    if line != "" && line[0] == ' ' then 1 + Indent(line[1..]) else 0
  }

  function ByIndent(): Column {
    lines => if lines == [] then 0 else Indent(lines[0])
  }

  function ReadDocument(lines: seq<string>): Option<Tree> {
    ReadWith(ByIndent(), lines)
  }

  /* ---- Finding the token again ---- */

  predicate NoBareQuote(s: string) {
    forall i :: 0 <= i < |s| && s[i] == '"' ==> i > 0 && s[i - 1] == '\\'
  }

  lemma {:induction false} EscapedQuotes(s: string)
    ensures NoBareQuote(EscapeText(s))
  {
    if s == "" {
    } else {
      EscapedQuotes(s[1..]);
      EscapeCharQuotes(s[0]);
    }
  }

  lemma EscapeCharQuotes(c: char)
    ensures NoBareQuote(EscapeChar(c))
  {
    if c as int >= 0x1_0000 {
      var v := c as int - 0x1_0000;
      var pair := SurrogatePair(v / 1024, v - 1024 * (v / 1024));
      assert forall i :: 0 <= i < |pair| ==> pair[i] != '"';
    }
  }

  lemma {:induction false} LastBareQuoteAt(prefix: string, body: string)
    requires prefix != "" && prefix[|prefix| - 1] == ' ' && NoBareQuote(body)
    ensures LastBareQuote(prefix + "\"" + body) == |prefix|
  {
    var s := prefix + "\"" + body;
    if body == "" {
      assert s[|s| - 1] == '"' && s[|s| - 2] == ' ';
    } else {
      assert s[..|s| - 1] == prefix + "\"" + body[..|body| - 1];
      LastBareQuoteAt(prefix, body[..|body| - 1]);
    }
  }

  lemma {:induction false} AfterLastSpaceAt(prefix: string, t: string)
    requires prefix != "" && prefix[|prefix| - 1] == ' ' && ' ' !in t
    ensures AfterLastSpace(prefix + t) == |prefix|
  {
    if t == "" {
      assert prefix + t == prefix;
    } else {
      assert (prefix + t)[..|prefix + t| - 1] == prefix + t[..|t| - 1];
      assert t[|t| - 1] in t;
      AfterLastSpaceAt(prefix, t[..|t| - 1]);
    }
  }

  /** The token of a value printed on a line is found again, whatever precedes the space before it. */
  lemma TokenStartAt(prefix: string, v: Value)
    requires prefix != "" && prefix[|prefix| - 1] == ' ' && !IsBlock(v)
    ensures TokenStart(prefix + Inline(v)) == |prefix|
  {
    var t := Inline(v);
    if v.Leaf? && v.scalar.Str? && !IsPlain(v.scalar.s) {
      EscapedQuotes(v.scalar.s);
      QuotedTokenStart(prefix, EscapeText(v.scalar.s));
    } else {
      BareToken(v);
      BareTokenStart(prefix, t);
    }
  }

  lemma QuotedTokenStart(prefix: string, body: string)
    requires prefix != "" && prefix[|prefix| - 1] == ' ' && NoBareQuote(body)
    ensures TokenStart(prefix + ("\"" + body + "\"")) == |prefix|
  {
    var line := prefix + ("\"" + body + "\"");
    assert line[..|line| - 1] == prefix + "\"" + body;
    LastBareQuoteAt(prefix, body);
  }

  lemma BareTokenStart(prefix: string, t: string)
    requires prefix != "" && prefix[|prefix| - 1] == ' ' && t != "" && ' ' !in t && '"' !in t
    ensures TokenStart(prefix + t) == |prefix|
  {
    assert t[|t| - 1] in t;
    AfterLastSpaceAt(prefix, t);
  }

  lemma BareToken(v: Value)
    requires !IsBlock(v) && (v.Leaf? && v.scalar.Str? ==> IsPlain(v.scalar.s))
    ensures Inline(v) != "" && ' ' !in Inline(v) && '"' !in Inline(v)
  {
  }

  lemma InlineNotEmpty(v: Value)
    requires !IsBlock(v)
    ensures Inline(v) != ""
  {
  }

  lemma TokenNotEmptyContainer(x: Scalar)
    ensures ScalarToken(x) != "{}" && ScalarToken(x) != "[]"
  {
    match x
    case Number(text) => assert text[0] in text;
    case Str(s) =>
      if IsPlain(s) { assert s[0] in s && s[0] != '{' && s[0] != '['; } else { assert Quote(s)[0] == '"'; }
    case _ =>
  }

  lemma ReadInlineInverts(v: Value)
    requires !IsBlock(v)
    ensures ReadInline(Inline(v)) == Tokens(v)
  {
    if v.Leaf? { TokenNotEmptyContainer(v.scalar); }
  }

  lemma ReadOpening(h: Head)
    ensures ReadLine(HeadText(h), true) == Opens(h)
  {
    var text := HeadText(h);
    assert h.Key? ==> text[|text| - 1] == ':' && text[..|text| - 1] == h.key;
  }

  lemma ReadSingle(h: Head, v: Value)
    requires !IsBlock(v)
    ensures ReadLine(HeadText(h) + " " + Inline(v), false) == Single(h, Inline(v))
  {
    var prefix := HeadText(h) + " ";
    var n := |prefix|;
    TokenStartAt(prefix, v);
    assert (prefix + Inline(v))[..n] == prefix && (prefix + Inline(v))[n..] == Inline(v);
    match h
    case Item => assert prefix == "- ";
    case Key(key) => assert prefix[..n - 2] == key && prefix[n - 2..] == ": " && prefix[n - 2] != '-';
  }

  /** A printed line is read back once its indentation is gone and the next line's column is known. */
  lemma ReadLineInverts(h: Head, v: Value)
    ensures ReadLine(HeadText(h) + After(v), IsBlock(v)) == if IsBlock(v) then Opens(h) else Single(h, Inline(v))
  {
    if IsBlock(v) {
      assert HeadText(h) + "" == HeadText(h);
      ReadOpening(h);
    } else {
      assert HeadText(h) + (" " + Inline(v)) == HeadText(h) + " " + Inline(v);
      ReadSingle(h, v);
    }
  }

  /* ---- Where lines start ---- */

  /** An alphabet of keys. */
  type Keys = string -> bool

  ghost predicate HeadOk(keys: Keys, h: Head) {
    h.Key? ==> keys(h.key)
  }

  ghost predicate Over(keys: Keys, v: Value) {
    match v
    case Leaf(_) => true
    case Map(entries) => forall e :: e in entries ==> keys(e.key) && Over(keys, e.value)
    case List(items) => forall i :: i in items ==> Over(keys, i)
  }

  function LineText(c: nat, h: Head, v: Value): string {
    Pad(c) + (HeadText(h) + After(v))
  }

  ghost predicate BlockLine(keys: Keys, line: string, c: nat) {
    exists h :: HeadOk(keys, h) && line == Pad(c) + HeadText(h)
  }

  ghost predicate InlineLine(keys: Keys, line: string, c: nat) {
    exists h, v :: HeadOk(keys, h) && !IsBlock(v) && line == LineText(c, h, v)
  }

  /** Printed lines that may start at a column: the head of a block is followed by a line one step deeper, any other line
      by one no deeper than itself. */
  ghost predicate Starts(keys: Keys, lines: seq<string>, c: nat)
    decreases |lines|, 0
  {
    && lines != [] && c % 2 == 0
    && ((BlockLine(keys, lines[0], c) && Starts(keys, lines[1..], c + 2))
        || (InlineLine(keys, lines[0], c) && EndsAt(keys, lines[1..], c)))
  }

  /** What may follow a line that is not the head of a block. */
  ghost predicate EndsAt(keys: Keys, lines: seq<string>, c: nat)
    decreases |lines|, 1
  {
    lines == [] || exists d: nat :: d <= c && Starts(keys, lines, d)
  }

  /** The column function is right about everything printed over an alphabet. */
  ghost predicate Aligned(keys: Keys, col: Column) {
    forall lines, c: nat :: Starts(keys, lines, c) ==> col(lines) == c
  }

  /** A relation between lines and columns, kept abstract where its definition does not matter. */
  type Starting = (seq<string>, nat) -> bool

  ghost function StartsOver(keys: Keys): Starting {
    (lines: seq<string>, c: nat) => Starts(keys, lines, c)
  }

  ghost predicate Ends(starts: Starting, lines: seq<string>, c: nat) {
    lines == [] || exists d: nat :: d <= c && starts(lines, d)
  }

  /** What may follow the line of a value at an even column. */
  ghost predicate Goes(starts: Starting, v: Value, c: nat, tail: seq<string>) {
    c % 2 == 0 && if IsBlock(v) then starts(tail, c + 2) else Ends(starts, tail, c)
  }

  /** Printing keeps the relation, and the column function respects it. */
  ghost predicate Kept(keys: Keys, starts: Starting, col: Column) {
    && (forall lines, c: nat :: starts(lines, c) ==> lines != [] && col(lines) == c)
    && (forall h, v, c: nat, tail :: HeadOk(keys, h) && Goes(starts, v, c, tail) ==> starts([LineText(c, h, v)] + tail, c))
  }

  lemma StartsKept(keys: Keys, col: Column)
    requires Aligned(keys, col)
    ensures Kept(keys, StartsOver(keys), col)
  {
    var starts := StartsOver(keys);
    forall h, v, c: nat, tail | HeadOk(keys, h) && Goes(starts, v, c, tail) ensures starts([LineText(c, h, v)] + tail, c) {
      LineStarts(keys, h, v, c, tail);
    }
  }

  lemma LineStarts(keys: Keys, h: Head, v: Value, c: nat, tail: seq<string>)
    requires HeadOk(keys, h) && c % 2 == 0
    requires if IsBlock(v) then Starts(keys, tail, c + 2) else EndsAt(keys, tail, c)
    ensures Starts(keys, [LineText(c, h, v)] + tail, c)
  {
    var lines := [LineText(c, h, v)] + tail;
    assert lines[1..] == tail;
    if IsBlock(v) {
      assert HeadText(h) + "" == HeadText(h);
      assert BlockLine(keys, lines[0], c);
    } else {
      assert InlineLine(keys, lines[0], c);
    }
  }

  ghost predicate Follows(starts: Starting, rest: seq<string>, indent: nat) {
    rest == [] || exists c: nat :: c < indent && starts(rest, c)
  }

  lemma PadLine(indent: nat, key: string, v: Value)
    ensures Pad(indent) + key + ":" + After(v) == LineText(indent, Key(key), v)
    ensures Pad(indent) + "-" + After(v) == LineText(indent, Item, v)
  {
    assert Pad(indent) + key + ":" + After(v) == Pad(indent) + (key + ":" + After(v));
    assert Pad(indent) + "-" + After(v) == Pad(indent) + ("-" + After(v));
  }

  /** The next line lies further right exactly below the head of a block. */
  lemma ColumnBelow(keys: Keys, starts: Starting, col: Column, v: Value, c: nat, tail: seq<string>)
    requires Kept(keys, starts, col) && Goes(starts, v, c, tail)
    ensures (tail != [] && col(tail) > c) == IsBlock(v)
  {
    if IsBlock(v) {
      assert starts(tail, c + 2);
    } else if tail != [] {
      var d: nat :| d <= c && starts(tail, d);
    }
  }

  /** A printed line at its place: it starts where it should and reads as what it is. */
  lemma LineReads(keys: Keys, starts: Starting, col: Column, indent: nat, h: Head, v: Value, tail: seq<string>)
    requires Kept(keys, starts, col) && HeadOk(keys, h) && Goes(starts, v, indent, tail)
    ensures var lines := [LineText(indent, h, v)] + tail;
            && starts(lines, indent) && col(lines) == indent
            && LineAt(col, lines, indent) == if IsBlock(v) then Opens(h) else Single(h, Inline(v))
  {
    assert starts([LineText(indent, h, v)] + tail, indent);
    ColumnBelow(keys, starts, col, v, indent, tail);
    LineAtReads(col, indent, h, v, tail);
  }

  lemma LineAtReads(col: Column, indent: nat, h: Head, v: Value, tail: seq<string>)
    requires (tail != [] && col(tail) > indent) == IsBlock(v)
    ensures LineAt(col, [LineText(indent, h, v)] + tail, indent) == if IsBlock(v) then Opens(h) else Single(h, Inline(v))
  {
    var lines := [LineText(indent, h, v)] + tail;
    assert lines[1..] == tail;
    assert lines[0][indent..] == HeadText(h) + After(v);
    ReadLineInverts(h, v);
  }

  /* ---- The reader inverts the printer ---- */

  function EntryTokens(entries: seq<Entry>): seq<TEntry> {
    if entries == [] then [] else [TEntry(entries[0].key, Tokens(entries[0].value))] + EntryTokens(entries[1..])
  }

  function ItemTokens(items: seq<Value>): seq<Tree> {
    if items == [] then [] else [Tokens(items[0])] + ItemTokens(items[1..])
  }

  lemma {:induction false} TokensOfEntries(entries: seq<Entry>)
    ensures Tokens(Map(entries)).entries == EntryTokens(entries)
  {
    if entries == [] {
    } else {
      TokensOfEntries(entries[1..]);
      assert Tokens(Map(entries)).entries == [TEntry(entries[0].key, Tokens(entries[0].value))] + Tokens(Map(entries[1..])).entries;
    }
  }

  lemma {:induction false} TokensOfItems(items: seq<Value>)
    ensures Tokens(List(items)).items == ItemTokens(items)
  {
    if items == [] {
    } else {
      TokensOfItems(items[1..]);
      assert Tokens(List(items)).items == [Tokens(items[0])] + Tokens(List(items[1..])).items;
    }
  }

  /** A printed block, followed by something to its left, is read back exactly. */
  lemma {:induction false} BlockReads(keys: Keys, starts: Starting, col: Column, v: Value, indent: nat, rest: seq<string>)
    requires Kept(keys, starts, col) && indent % 2 == 0 && IsBlock(v) && Over(keys, v) && Follows(starts, rest, indent)
    ensures ReadBlock(col, Emit(v, indent) + rest, indent) == Parsed(Tokens(v), rest)
    ensures starts(Emit(v, indent) + rest, indent)
    decreases v, 1
  {
    match v
    case Map(entries) =>
      EntriesRead(keys, starts, col, entries, indent, rest);
      TokensOfEntries(entries);
    case List(items) =>
      ItemsRead(keys, starts, col, items, indent, rest);
      TokensOfItems(items);
  }

  lemma TailFollows(starts: Starting, tail: seq<string>, rest: seq<string>, indent: nat)
    requires if tail == rest then Follows(starts, rest, indent) else starts(tail, indent)
    ensures Ends(starts, tail, indent) && Follows(starts, tail, indent + 2)
  {
  }

  /** The lines below the line of a value: its block, if it has one, and what comes after. */
  function Under(v: Value, indent: nat, tail: seq<string>): seq<string> {
    if IsBlock(v) then Emit(v, indent + 2) + tail else tail
  }

  ghost predicate EntriesParsed(starts: Starting, col: Column, lines: seq<string>, indent: nat, tokens: seq<TEntry>, rest: seq<string>) {
    && ReadEntries(col, lines, indent) == Parsed(tokens, rest)
    && if tokens == [] then lines == rest
       else && starts(lines, indent) && lines != [] && col(lines) == indent
            && !LineAt(col, lines, indent).Strange? && LineAt(col, lines, indent).head.Key?
  }

  ghost predicate ItemsParsed(starts: Starting, col: Column, lines: seq<string>, indent: nat, tokens: seq<Tree>, rest: seq<string>) {
    && ReadItems(col, lines, indent) == Parsed(tokens, rest)
    && if tokens == [] then lines == rest
       else && starts(lines, indent) && lines != [] && col(lines) == indent
            && !LineAt(col, lines, indent).Strange? && LineAt(col, lines, indent).head.Item?
  }

  lemma {:induction false} EntriesRead(keys: Keys, starts: Starting, col: Column, entries: seq<Entry>, indent: nat, rest: seq<string>)
    requires Kept(keys, starts, col) && indent % 2 == 0 && Follows(starts, rest, indent)
    requires forall e :: e in entries ==> keys(e.key) && Over(keys, e.value)
    ensures EntriesParsed(starts, col, EmitEntries(entries, indent) + rest, indent, EntryTokens(entries), rest)
    decreases entries, 0
  {
    if entries == [] {
      assert EmitEntries(entries, indent) + rest == rest;
    } else {
      var Entry(key, v) := entries[0];
      assert entries[0] in entries;
      var tail := EmitEntries(entries[1..], indent) + rest;
      EntriesRead(keys, starts, col, entries[1..], indent, rest);
      TailFollows(starts, tail, rest, indent);
      if IsBlock(v) {
        BlockReads(keys, starts, col, v, indent + 2, tail);
      }
      EntryRead(keys, starts, col, key, v, indent, tail, EntryTokens(entries[1..]), rest);
      EntriesText(entries, indent, rest);
    }
  }

  /** One entry in front of entries already read. */
  lemma EntryRead(keys: Keys, starts: Starting, col: Column, key: string, v: Value, indent: nat, tail: seq<string>,
                  more: seq<TEntry>, rest: seq<string>)
    requires Kept(keys, starts, col) && keys(key) && Goes(starts, v, indent, Under(v, indent, tail))
    requires IsBlock(v) ==> ReadBlock(col, Emit(v, indent + 2) + tail, indent + 2) == Parsed(Tokens(v), tail)
    requires ReadEntries(col, tail, indent) == Parsed(more, rest)
    ensures EntriesParsed(starts, col, [LineText(indent, Key(key), v)] + Under(v, indent, tail), indent, [TEntry(key, Tokens(v))] + more, rest)
  {
    var lines := [LineText(indent, Key(key), v)] + Under(v, indent, tail);
    LineReads(keys, starts, col, indent, Key(key), v, Under(v, indent, tail));
    assert lines[1..] == Under(v, indent, tail);
    ReadEntryStep(col, lines, indent, key, v, tail, more, rest);
  }

  /** Reading one entry whose first line is known. */
  lemma ReadEntryStep(col: Column, lines: seq<string>, indent: nat, key: string, v: Value, tail: seq<string>, more: seq<TEntry>, rest: seq<string>)
    requires lines != [] && col(lines) == indent && ReadEntries(col, tail, indent) == Parsed(more, rest)
    requires LineAt(col, lines, indent) == if IsBlock(v) then Opens(Key(key)) else Single(Key(key), Inline(v))
    requires if IsBlock(v) then ReadBlock(col, lines[1..], indent + 2) == Parsed(Tokens(v), tail) else lines[1..] == tail
    ensures ReadEntries(col, lines, indent) == Parsed([TEntry(key, Tokens(v))] + more, rest)
  {
    if !IsBlock(v) {
      ReadInlineInverts(v);
    }
  }

  lemma EntriesText(entries: seq<Entry>, indent: nat, rest: seq<string>)
    requires entries != []
    ensures var v, tail := entries[0].value, EmitEntries(entries[1..], indent) + rest;
            EmitEntries(entries, indent) + rest
            == [LineText(indent, Key(entries[0].key), v)] + Under(v, indent, tail)
  {
    var Entry(key, v) := entries[0];
    var head, below, others := [LineText(indent, Key(key), v)], Below(v, indent), EmitEntries(entries[1..], indent);
    UnfoldEntries(entries, indent);
    UnfoldEntry(key, v, indent);
    PadLine(indent, key, v);
    AppendTwice(head + below, others, rest);
    AppendTwice(head, below, others + rest);
    assert [] + (others + rest) == others + rest;
  }

  lemma {:induction false} ItemsRead(keys: Keys, starts: Starting, col: Column, items: seq<Value>, indent: nat, rest: seq<string>)
    requires Kept(keys, starts, col) && indent % 2 == 0 && Follows(starts, rest, indent)
    requires forall v :: v in items ==> Over(keys, v)
    ensures ItemsParsed(starts, col, EmitItems(items, indent) + rest, indent, ItemTokens(items), rest)
    decreases items, 0
  {
    if items == [] {
      assert EmitItems(items, indent) + rest == rest;
    } else {
      var v := items[0];
      assert v in items;
      var tail := EmitItems(items[1..], indent) + rest;
      ItemsRead(keys, starts, col, items[1..], indent, rest);
      TailFollows(starts, tail, rest, indent);
      if IsBlock(v) {
        BlockReads(keys, starts, col, v, indent + 2, tail);
      }
      ItemRead(keys, starts, col, v, indent, tail, ItemTokens(items[1..]), rest);
      ItemsText(items, indent, rest);
    }
  }

  /** One item in front of items already read. */
  lemma ItemRead(keys: Keys, starts: Starting, col: Column, v: Value, indent: nat, tail: seq<string>, more: seq<Tree>, rest: seq<string>)
    requires Kept(keys, starts, col) && Goes(starts, v, indent, Under(v, indent, tail))
    requires IsBlock(v) ==> ReadBlock(col, Emit(v, indent + 2) + tail, indent + 2) == Parsed(Tokens(v), tail)
    requires ReadItems(col, tail, indent) == Parsed(more, rest)
    ensures ItemsParsed(starts, col, [LineText(indent, Item, v)] + Under(v, indent, tail), indent, [Tokens(v)] + more, rest)
  {
    var lines := [LineText(indent, Item, v)] + Under(v, indent, tail);
    LineReads(keys, starts, col, indent, Item, v, Under(v, indent, tail));
    assert lines[1..] == Under(v, indent, tail);
    ReadItemStep(col, lines, indent, v, tail, more, rest);
  }

  /** Reading one item whose first line is known. */
  lemma ReadItemStep(col: Column, lines: seq<string>, indent: nat, v: Value, tail: seq<string>, more: seq<Tree>, rest: seq<string>)
    requires lines != [] && col(lines) == indent && ReadItems(col, tail, indent) == Parsed(more, rest)
    requires LineAt(col, lines, indent) == if IsBlock(v) then Opens(Item) else Single(Item, Inline(v))
    requires if IsBlock(v) then ReadBlock(col, lines[1..], indent + 2) == Parsed(Tokens(v), tail) else lines[1..] == tail
    ensures ReadItems(col, lines, indent) == Parsed([Tokens(v)] + more, rest)
  {
    if !IsBlock(v) {
      ReadInlineInverts(v);
    }
  }

  lemma ItemsText(items: seq<Value>, indent: nat, rest: seq<string>)
    requires items != []
    ensures var v, tail := items[0], EmitItems(items[1..], indent) + rest;
            EmitItems(items, indent) + rest
            == [LineText(indent, Item, v)] + Under(v, indent, tail)
  {
    var v := items[0];
    var head, below, others := [LineText(indent, Item, v)], Below(v, indent), EmitItems(items[1..], indent);
    UnfoldItems(items, indent);
    UnfoldItem(v, indent);
    PadLine(indent, "", v);
    AppendTwice(head + below, others, rest);
    AppendTwice(head, below, others + rest);
    assert [] + (others + rest) == others + rest;
  }

  /** With a right column function any nested dictionary or list is read back. */
  lemma ReadWithInverts(keys: Keys, col: Column, v: Value)
    requires Aligned(keys, col) && !v.Leaf? && Over(keys, v)
    ensures ReadWith(col, Emit(v, 0)) == Some(Tokens(v))
  {
    var lines := Emit(v, 0);
    if IsBlock(v) {
      StartsKept(keys, col);
      BlockReads(keys, StartsOver(keys), col, v, 0, []);
      assert lines + [] == lines;
      BlockIsNotEmptyContainer(v);
    } else {
      assert Pad(0) + "{}" == "{}" && Pad(0) + "[]" == "[]";
      assert "{}"[0] != "[]"[0] && ["{}"][0] != ["[]"][0];
      match v {
        case Map(entries) => assert Tokens(v).entries == [];
        case List(items) => assert lines == ["[]"] && Tokens(v).items == [];
      }
    }
  }

  /** Keys may hold anything but must not start with a space. */
  predicate KeyOk(key: string) {
    !(" " <= key)
  }

  predicate KeysOk(v: Value) {
    match v
    case Leaf(_) => true
    case Map(entries) => forall e :: e in entries ==> KeyOk(e.key) && KeysOk(e.value)
    case List(items) => forall v :: v in items ==> KeysOk(v)
  }

  lemma {:induction false} IndentOf(n: nat, content: string)
    requires content != "" && content[0] != ' '
    ensures Indent(Pad(n) + content) == n
  {
    if n == 0 {
      assert Pad(0) + content == content;
    } else {
      assert (Pad(n) + content)[1..] == Pad(n - 1) + content;
      IndentOf(n - 1, content);
    }
  }

  /** Without leading spaces the indentation is the column. */
  lemma IndentAligned()
    ensures Aligned(KeyOk, ByIndent())
  {
    forall lines, c: nat | Starts(KeyOk, lines, c) ensures ByIndent()(lines) == c {
      if BlockLine(KeyOk, lines[0], c) {
        var h :| HeadOk(KeyOk, h) && lines[0] == Pad(c) + HeadText(h);
        IndentOf(c, HeadText(h));
      } else {
        var h, v :| HeadOk(KeyOk, h) && !IsBlock(v) && lines[0] == LineText(c, h, v);
        IndentOf(c, HeadText(h) + After(v));
      }
    }
  }

  lemma {:induction false} KeysOkIsOver(v: Value)
    requires KeysOk(v)
    ensures Over(KeyOk, v)
  {
    match v
    case Leaf(_) =>
    case Map(entries) => forall e | e in entries ensures Over(KeyOk, e.value) { KeysOkIsOver(e.value); }
    case List(items) => forall i | i in items ensures Over(KeyOk, i) { KeysOkIsOver(i); }
  }

  /** Any nested dictionary or list without leading spaces in its keys is read back from its lines: same shape, key order
      and tokens. */
  lemma ReadInvertsEmit(v: Value)
    requires !v.Leaf? && KeysOk(v)
    ensures ReadDocument(Emit(v, 0)) == Some(Tokens(v))
  {
    IndentAligned();
    KeysOkIsOver(v);
    ReadWithInverts(KeyOk, ByIndent(), v);
  }

  lemma BlockIsNotEmptyContainer(v: Value)
    requires IsBlock(v)
    ensures Emit(v, 0) != ["{}"] && Emit(v, 0) != ["[]"]
  {
    var lines := Emit(v, 0);
    match v
    case Map(entries) =>
      var Entry(key, item) := entries[0];
      var head := Pad(0) + key + ":" + After(item);
      UnfoldEntries(entries, 0);
      UnfoldEntry(key, item, 0);
      assert lines[0] == head && head[|key|] == ':';
      assert ':' in head && ':' !in "{}" && ':' !in "[]";
    case List(items) =>
      var head := Pad(0) + "-" + After(items[0]);
      UnfoldItems(items, 0);
      UnfoldItem(items[0], 0);
      assert lines[0] == head && head[0] == '-';
  }

  /* ---- Printing alike ---- */

  /** The lines depend on shape, key order and tokens only. */
  lemma {:induction false} EmitByTokens(a: Value, b: Value, indent: nat)
    requires Tokens(a) == Tokens(b)
    ensures Emit(a, indent) == Emit(b, indent)
    decreases a, 1
  {
    match a
    case Leaf(_) =>
    case Map(entries) =>
      assert |entries| == |Tokens(a).entries| == |Tokens(b).entries| == |b.entries|;
      TokensOfEntries(entries);
      TokensOfEntries(b.entries);
      EmitEntriesByTokens(entries, b.entries, indent);
    case List(items) =>
      assert |items| == |Tokens(a).items| == |Tokens(b).items| == |b.items|;
      TokensOfItems(items);
      TokensOfItems(b.items);
      EmitItemsByTokens(items, b.items, indent);
  }

  lemma SameBlockness(a: Value, b: Value)
    requires Tokens(a) == Tokens(b)
    ensures IsBlock(a) == IsBlock(b) && (!IsBlock(a) ==> Inline(a) == Inline(b))
  {
    match a
    case Leaf(_) =>
    case Map(entries) => assert |entries| == |Tokens(a).entries| == |Tokens(b).entries| == |b.entries|;
    case List(items) => assert |items| == |Tokens(a).items| == |Tokens(b).items| == |b.items|;
  }

  lemma {:induction false} EmitEntriesByTokens(a: seq<Entry>, b: seq<Entry>, indent: nat)
    requires EntryTokens(a) == EntryTokens(b) && |a| == |b|
    ensures EmitEntries(a, indent) == EmitEntries(b, indent)
    decreases a, 0
  {
    if a == [] {
    } else {
      assert EntryTokens(a)[0] == EntryTokens(b)[0] && EntryTokens(a)[1..] == EntryTokens(b)[1..];
      EmitEntriesByTokens(a[1..], b[1..], indent);
      SameBlockness(a[0].value, b[0].value);
      assert a[0] in a;
      UnfoldEntry(a[0].key, a[0].value, indent);
      UnfoldEntry(b[0].key, b[0].value, indent);
      if IsBlock(a[0].value) {
        EmitByTokens(a[0].value, b[0].value, indent + 2);
      }
    }
  }

  lemma {:induction false} EmitItemsByTokens(a: seq<Value>, b: seq<Value>, indent: nat)
    requires ItemTokens(a) == ItemTokens(b) && |a| == |b|
    ensures EmitItems(a, indent) == EmitItems(b, indent)
    decreases a, 0
  {
    if a == [] {
    } else {
      assert ItemTokens(a)[0] == ItemTokens(b)[0] && ItemTokens(a)[1..] == ItemTokens(b)[1..];
      EmitItemsByTokens(a[1..], b[1..], indent);
      SameBlockness(a[0], b[0]);
      UnfoldItem(a[0], indent);
      UnfoldItem(b[0], indent);
      if IsBlock(a[0]) {
        EmitByTokens(a[0], b[0], indent + 2);
      }
    }
  }

  /** Two documents print alike exactly when they match up to scalar tokens. */
  lemma PrintAlikeIffSameTokens(a: Value, b: Value)
    requires !a.Leaf? && !b.Leaf? && KeysOk(a) && KeysOk(b)
    ensures Emit(a, 0) == Emit(b, 0) <==> Tokens(a) == Tokens(b)
  {
    ReadInvertsEmit(a);
    ReadInvertsEmit(b);
    if Tokens(a) == Tokens(b) {
      EmitByTokens(a, b, 0);
    }
  }

  /** Keys that start with a space can forge the indentation: these two documents differ but print alike. */
  lemma LeadingSpaceCollides()
    ensures var x := Leaf(Str("x"));
            var a := Map([Entry("k", Map([Entry("a", x), Entry("b", x)]))]);
            var b := Map([Entry("k", Map([Entry("a", x)])), Entry("  b", x)]);
            Emit(a, 0) == Emit(b, 0) && Tokens(a) != Tokens(b)
  {
    var x := Leaf(Str("x"));
    var inner, single := [Entry("a", x), Entry("b", x)], [Entry("a", x)];
    var a, b := Map([Entry("k", Map(inner))]), Map([Entry("k", Map(single)), Entry("  b", x)]);
    var head := Pad(0) + "k" + ":" + "";
    var la, lb := Pad(2) + "a" + ":" + After(x), Pad(2) + "b" + ":" + After(x);
    assert lb == Pad(0) + "  b" + ":" + After(x);
    OneLeafEntry("b", x, 2);
    OneLeafEntry("a", x, 2);
    OneLeafEntry("  b", x, 0);
    assert EmitEntries(inner, 2) == [la, lb] by {
      UnfoldEntries(inner, 2);
      assert inner[1..] == [Entry("b", x)];
    }
    assert EmitEntries(a.entries, 0) == [head, la, lb] by {
      UnfoldEntries(a.entries, 0);
      UnfoldEntry("k", Map(inner), 0);
      assert a.entries[1..] == [];
    }
    assert EmitEntries(b.entries, 0) == [head, la, lb] by {
      UnfoldEntries(b.entries, 0);
      UnfoldEntry("k", Map(single), 0);
      assert b.entries[1..] == [Entry("  b", x)];
    }
    assert |Tokens(a).entries| == 1 && |Tokens(b).entries| == 2;
  }

  lemma OneLeafEntry(key: string, v: Value, indent: nat)
    requires v.Leaf?
    ensures EmitEntries([Entry(key, v)], indent) == EmitEntry(key, v, indent) == [Pad(indent) + key + ":" + After(v)]
  {
    UnfoldEntries([Entry(key, v)], indent);
    UnfoldEntry(key, v, indent);
    assert [Entry(key, v)][1..] == [];
  }
}
