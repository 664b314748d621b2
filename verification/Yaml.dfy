/** The generator's YAML printer: the lines of a catalogue value. */
module Yaml {
  import opened Text

  /** `str(n)` of an integer or float, kept as its text. */
  type NumberText = s: string | s != "" && forall c :: c in s ==> IsNumberChar(c) witness "0"

  predicate IsNumberChar(c: char) {
    IsDigit(c) || c == '+' || c == '-' || c == '.' || c == 'e' || c == 'i' || c == 'n' || c == 'f' || c == 'a'
  }

  datatype Scalar = Null | Bool(b: bool) | Number(text: NumberText) | Str(s: string)

  /** A catalogue value: dictionaries keep their insertion order. */
  datatype Value = Leaf(scalar: Scalar) | Map(entries: seq<Entry>) | List(items: seq<Value>)

  datatype Entry = Entry(key: string, value: Value)

  /* ---- Scalars ---- */

  /** The characters that end a line for `str.splitlines`. */
  predicate IsLineBreak(c: char) {
    || '\n' <= c <= '\r' || '\U{1c}' <= c <= '\U{1e}'
    || c == '\U{85}' || c == '\U{2028}' || c == '\U{2029}'
  }

  /** The letters and digits outside ASCII according to the Unicode tables; which ones they are is left open. */
  type Alphabet = s: set<char> | forall c :: c in s ==> c >= '\U{80}' && !IsLineBreak(c)

  const OTHER_ALPHANUMERICS: Alphabet

  predicate IsAlnum(c: char) {
    IsDigit(c) || 'a' <= c <= 'z' || 'A' <= c <= 'Z' || c in OTHER_ALPHANUMERICS
  }

  predicate IsSafe(text: string) {
    forall c :: c in text ==> IsAlnum(c) || c == '-' || c == '_' || c == '.' || c == '/' || c == ':'
  }

  function HexDigit(n: nat): char
    requires n < 16
  {
    if n < 10 then ('0' as int + n) as char else ('a' as int + n - 10) as char
  }

  function Hex4(n: nat): string
    requires n < 0x1_0000
  {
    var a := n / 16;
    var b := a / 16;
    [HexDigit(b / 16), HexDigit(b % 16), HexDigit(a % 16), HexDigit(n % 16)]
  }

  /** A character beyond the basic plane, as two escapes. */
  function SurrogatePair(high: nat, low: nat): string
    requires high < 1024 && low < 1024
  {
    "\\u" + Hex4(0xd800 + high) + "\\u" + Hex4(0xdc00 + low)
  }

  function EscapeChar(c: char): (r: string)
    ensures r != ""
  {
    if c == '"' then "\\\"" else if c == '\\' then "\\\\"
    else if c == '\n' then "\\n" else if c == '\r' then "\\r" else if c == '\t' then "\\t"
    else if c == '\U{8}' then "\\b" else if c == '\U{c}' then "\\f"
    else if ' ' <= c <= '~' then [c]
    else if c as int < 0x1_0000 then "\\u" + Hex4(c as int)
    else
      var v := c as int - 0x1_0000;
      SurrogatePair(v / 1024, v - 1024 * (v / 1024))
  }

  function EscapeText(s: string): (r: string)
    ensures r == "" <==> s == ""
  {
    if s == "" then "" else EscapeChar(s[0]) + EscapeText(s[1..])
  }

  /** `json.dumps` of a string. */
  function Quote(s: string): string {
    "\"" + EscapeText(s) + "\""
  }

  /** Text printed without quotes. */
  predicate IsPlain(s: string) {
    s != "" && IsSafe(s) && s != "true" && s != "false" && s != "null"
  }

  function ScalarToken(v: Scalar): string {
    match v
    case Bool(b) => if b then "true" else "false"
    case Null => "null"
    case Number(text) => text
    case Str(s) => if IsPlain(s) then s else Quote(s)
  }

  /* ---- The printer ---- */

  function Pad(n: nat): (r: string)
    ensures |r| == n
  {
    seq(n, _ => ' ')
  }

  predicate IsBlock(v: Value) {
    (v.Map? && v.entries != []) || (v.List? && v.items != [])
  }

  /** What stands on the line of a key or a dash when no block follows. */
  function Inline(v: Value): string
    requires !IsBlock(v)
  {
    match v
    case Leaf(x) => ScalarToken(x)
    case Map(_) => "{}"
    case List(_) => "[]"
  }

  function Emit(v: Value, indent: nat): seq<string>
    decreases v, 1
  {
    match v
    case Map(entries) => if entries == [] then [Pad(indent) + "{}"] else EmitEntries(entries, indent)
    case List(items) => if items == [] then [Pad(indent) + "[]"] else EmitItems(items, indent)
    case Leaf(x) => [Pad(indent) + ScalarToken(x)]
  }

  /** What follows the key or the dash on its line. */
  function After(v: Value): string {
    if IsBlock(v) then "" else " " + Inline(v)
  }

  /** The lines of a nested block. */
  function Below(v: Value, indent: nat): seq<string>
    decreases v, 2
  {
    if IsBlock(v) then Emit(v, indent + 2) else []
  }

  function EmitEntry(key: string, v: Value, indent: nat): seq<string>
    decreases v, 3
  {
    [Pad(indent) + key + ":" + After(v)] + Below(v, indent)
  }

  function EmitItem(v: Value, indent: nat): seq<string>
    decreases v, 3
  {
    [Pad(indent) + "-" + After(v)] + Below(v, indent)
  }

  function EmitEntries(entries: seq<Entry>, indent: nat): seq<string>
    decreases entries, 0
  {
    if entries == [] then []
    else EmitEntry(entries[0].key, entries[0].value, indent) + EmitEntries(entries[1..], indent)
  }

  function EmitItems(items: seq<Value>, indent: nat): seq<string>
    decreases items, 0
  {
    if items == [] then []
    else EmitItem(items[0], indent) + EmitItems(items[1..], indent)
  }

  /** The printer as it runs: appending lines, recursing for nested blocks. */
  method EmitYaml(v: Value, indent: nat) returns (lines: seq<string>)
    ensures lines == Emit(v, indent)
    decreases v, 1
  {
    match v
    case Map(entries) =>
      if entries == [] {
        return [Pad(indent) + "{}"];
      }
      lines := EmitMap(v, indent);
    case List(items) =>
      if items == [] {
        return [Pad(indent) + "[]"];
      }
      lines := EmitList(v, indent);
    case Leaf(x) =>
      return [Pad(indent) + ScalarToken(x)];
  }

  method EmitMap(v: Value, indent: nat) returns (lines: seq<string>)
    requires v.Map?
    ensures lines == EmitEntries(v.entries, indent)
    decreases v, 0
  {
    var pad := Pad(indent);
    lines := [];
    for i := 0 to |v.entries|
      invariant lines + EmitEntries(v.entries[i..], indent) == EmitEntries(v.entries, indent)
    {
      var Entry(key, item) := v.entries[i];
      assert v.entries[i] in v.entries;
      EntriesStep(lines, v.entries, i, indent);
      EntryLines(key, item, indent);
      if IsBlock(item) {
        var nested := EmitYaml(item, indent + 2);
        AppendTwice(lines, [pad + key + ":"], nested);
        lines := lines + [pad + key + ":"];
        lines := lines + nested;
      } else if item.Map? {
        lines := lines + [pad + key + ": {}"];
      } else if item.List? {
        lines := lines + [pad + key + ": []"];
      } else {
        lines := lines + [pad + key + ": " + ScalarToken(item.scalar)];
      }
    }
  }

  method EmitList(v: Value, indent: nat) returns (lines: seq<string>)
    requires v.List?
    ensures lines == EmitItems(v.items, indent)
    decreases v, 0
  {
    var pad := Pad(indent);
    lines := [];
    for i := 0 to |v.items|
      invariant lines + EmitItems(v.items[i..], indent) == EmitItems(v.items, indent)
    {
      var item := v.items[i];
      ItemsStep(lines, v.items, i, indent);
      ItemLines(item, indent);
      if IsBlock(item) {
        var nested := EmitYaml(item, indent + 2);
        AppendTwice(lines, [pad + "-"], nested);
        lines := lines + [pad + "-"];
        lines := lines + nested;
      } else if item.Map? {
        lines := lines + [pad + "- {}"];
      } else if item.List? {
        lines := lines + [pad + "- []"];
      } else {
        lines := lines + [pad + "- " + ScalarToken(item.scalar)];
      }
    }
  }

  lemma AppendTwice(a: seq<string>, b: seq<string>, c: seq<string>)
    ensures (a + b) + c == a + (b + c)
  {
  }

  lemma UnfoldEntries(entries: seq<Entry>, indent: nat)
    requires entries != []
    ensures EmitEntries(entries, indent)
            == EmitEntry(entries[0].key, entries[0].value, indent) + EmitEntries(entries[1..], indent)
  {
  }

  lemma UnfoldItems(items: seq<Value>, indent: nat)
    requires items != []
    ensures EmitItems(items, indent) == EmitItem(items[0], indent) + EmitItems(items[1..], indent)
  {
  }

  lemma UnfoldEntry(key: string, v: Value, indent: nat)
    ensures EmitEntry(key, v, indent) == [Pad(indent) + key + ":" + After(v)] + Below(v, indent)
    ensures Below(v, indent) == if IsBlock(v) then Emit(v, indent + 2) else []
  {
  }

  lemma UnfoldItem(v: Value, indent: nat)
    ensures EmitItem(v, indent) == [Pad(indent) + "-" + After(v)] + Below(v, indent)
    ensures Below(v, indent) == if IsBlock(v) then Emit(v, indent + 2) else []
  {
  }

  lemma EntryLines(key: string, v: Value, indent: nat)
    ensures IsBlock(v) ==> EmitEntry(key, v, indent) == [Pad(indent) + key + ":"] + Emit(v, indent + 2)
    ensures v == Map([]) ==> EmitEntry(key, v, indent) == [Pad(indent) + key + ": {}"]
    ensures v == List([]) ==> EmitEntry(key, v, indent) == [Pad(indent) + key + ": []"]
    ensures v.Leaf? ==> EmitEntry(key, v, indent) == [Pad(indent) + key + ": " + ScalarToken(v.scalar)]
  {
    UnfoldEntry(key, v, indent);
    var head := Pad(indent) + key + ":";
    if IsBlock(v) {
      assert head + "" == head;
    } else {
      assert head + (" " + Inline(v)) == Pad(indent) + key + ": " + Inline(v);
      assert v == Map([]) ==> Pad(indent) + key + ": " + "{}" == Pad(indent) + key + ": {}";
      assert v == List([]) ==> Pad(indent) + key + ": " + "[]" == Pad(indent) + key + ": []";
    }
  }

  lemma ItemLines(v: Value, indent: nat)
    ensures IsBlock(v) ==> EmitItem(v, indent) == [Pad(indent) + "-"] + Emit(v, indent + 2)
    ensures v == Map([]) ==> EmitItem(v, indent) == [Pad(indent) + "- {}"]
    ensures v == List([]) ==> EmitItem(v, indent) == [Pad(indent) + "- []"]
    ensures v.Leaf? ==> EmitItem(v, indent) == [Pad(indent) + "- " + ScalarToken(v.scalar)]
  {
    UnfoldItem(v, indent);
    var head := Pad(indent) + "-";
    if IsBlock(v) {
      assert head + "" == head;
    } else {
      assert head + (" " + Inline(v)) == Pad(indent) + "- " + Inline(v);
      assert v == Map([]) ==> Pad(indent) + "- " + "{}" == Pad(indent) + "- {}";
      assert v == List([]) ==> Pad(indent) + "- " + "[]" == Pad(indent) + "- []";
    }
  }

  lemma EntriesStep(lines: seq<string>, entries: seq<Entry>, i: nat, indent: nat)
    requires i < |entries|
    ensures lines + EmitEntries(entries[i..], indent)
            == (lines + EmitEntry(entries[i].key, entries[i].value, indent)) + EmitEntries(entries[i + 1..], indent)
  {
    assert entries[i..][0] == entries[i] && entries[i..][1..] == entries[i + 1..];
    AppendTwice(lines, EmitEntry(entries[i].key, entries[i].value, indent), EmitEntries(entries[i + 1..], indent));
  }

  lemma ItemsStep(lines: seq<string>, items: seq<Value>, i: nat, indent: nat)
    requires i < |items|
    ensures lines + EmitItems(items[i..], indent) == (lines + EmitItem(items[i], indent)) + EmitItems(items[i + 1..], indent)
  {
    assert items[i..][0] == items[i] && items[i..][1..] == items[i + 1..];
    AppendTwice(lines, EmitItem(items[i], indent), EmitItems(items[i + 1..], indent));
  }
}
