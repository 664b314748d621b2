/** The line scanner that reads service names back from a rendered Compose file. */
module ServiceScanner {
  import opened Wrappers
  import opened Yaml
  import opened ComposeModel
  import T = Text

  /* ---- Text and lines ---- */

  /** `text.splitlines()`: a carriage return and the line feed after it end one line; a final line end adds none. */
  function SplitLines(text: string): seq<string> {
    if text == "" then []
    else if IsLineBreak(text[0]) then
      [""] + SplitLines(if text[0] == '\r' && |text| > 1 && text[1] == '\n' then text[2..] else text[1..])
    else
      var rest := SplitLines(text[1..]);
      if rest == [] then [[text[0]]] else [[text[0]] + rest[0]] + rest[1..]
  }

  predicate Unbroken(line: string) {
    forall c :: c in line ==> !IsLineBreak(c)
  }

  predicate AllUnbroken(lines: seq<string>) {
    forall l :: l in lines ==> Unbroken(l)
  }

  /** `"\n".join(lines + [""])`. */
  function Unlines(lines: seq<string>): string {
    if lines == [] then "" else lines[0] + "\n" + Unlines(lines[1..])
  }

  lemma {:induction false} UnlinesIsJoin(lines: seq<string>)
    ensures Unlines(lines) == T.Join(lines + [""], '\n')
  {
    if lines == [] {
    } else {
      UnlinesIsJoin(lines[1..]);
      assert (lines + [""])[1..] == lines[1..] + [""];
    }
  }

  lemma {:induction false} SplitFirstLine(line: string, rest: string)
    requires Unbroken(line)
    ensures SplitLines(line + "\n" + rest) == [line] + SplitLines(rest)
  {
    var text := line + "\n" + rest;
    if line == "" {
      assert text[1..] == rest;
    } else {
      assert line[0] in line && Unbroken(line[1..]);
      assert text[1..] == line[1..] + "\n" + rest;
      SplitFirstLine(line[1..], rest);
      assert line == [line[0]] + line[1..];
    }
  }

  /** The characters that end a line. */
  lemma LineBreaks(c: char)
    ensures IsLineBreak(c) <==> c as int in {10, 11, 12, 13, 28, 29, 30, 133, 8232, 8233}
  {
  }

  predicate IsEnding(ending: string, rest: string) {
    || ending == "\r\n"
    || (|ending| == 1 && IsLineBreak(ending[0]) && !(ending == "\r" && rest != "" && rest[0] == '\n'))
  }

  /** A line goes up to its ending, whichever that is. */
  lemma {:induction false} SplitAtEnding(line: string, ending: string, rest: string)
    requires Unbroken(line) && IsEnding(ending, rest)
    ensures SplitLines(line + ending + rest) == [line] + SplitLines(rest)
  {
    var text := line + ending + rest;
    if line == "" {
      assert text == ending + rest && text[|ending|..] == rest;
    } else {
      assert line[0] in line && Unbroken(line[1..]);
      SplitAtEnding(line[1..], ending, rest);
      assert text[1..] == line[1..] + ending + rest;
      assert line == [line[0]] + line[1..];
    }
  }

  /** The last line needs no ending. */
  lemma {:induction false} SplitLast(line: string)
    requires Unbroken(line)
    ensures SplitLines(line) == if line == "" then [] else [line]
  {
    if line == "" {
    } else {
      assert line[0] in line;
      var rest := SplitLines(line[1..]);
      SplitLast(line[1..]);
      assert !IsLineBreak(line[0]) && line == [line[0]] + line[1..];
      if line[1..] == "" {
        assert line == [line[0]];
      } else {
        assert [[line[0]] + rest[0]] + rest[1..] == [line];
      }
    }
  }

  lemma {:induction false} SplitInvertsUnlines(lines: seq<string>)
    requires AllUnbroken(lines)
    ensures SplitLines(Unlines(lines)) == lines
  {
    if lines == [] {
    } else {
      assert lines[0] in lines;
      SplitFirstLine(lines[0], Unlines(lines[1..]));
      SplitInvertsUnlines(lines[1..]);
    }
  }

  /* ---- The scanner ---- */

  predicate IsWhitespace(c: char) {
    || '\t' <= c <= '\r' || '\U{1c}' <= c <= ' ' || c == '\U{85}' || c == '\U{a0}' || c == '\U{1680}'
    || '\U{2000}' <= c <= '\U{200a}' || c == '\U{2028}' || c == '\U{2029}' || c == '\U{202f}' || c == '\U{205f}' || c == '\U{3000}'
  }

  function StripLeft(s: string): string {
    if s != "" && IsWhitespace(s[0]) then StripLeft(s[1..]) else s
  }

  function StripRight(s: string): string {
    if s != "" && IsWhitespace(s[|s| - 1]) then StripRight(s[..|s| - 1]) else s
  }

  function StripColons(s: string): string {
    if s != "" && s[|s| - 1] == ':' then StripColons(s[..|s| - 1]) else s
  }

  /** `raw.strip().rstrip(":")`. */
  function KeyOfLine(raw: string): string {
    StripColons(StripRight(StripLeft(raw)))
  }

  predicate EndsServices(raw: string) {
    raw != "" && !(" " <= raw) && !("#" <= raw)
  }

  predicate IsServiceLine(raw: string) {
    "  " <= raw && !("    " <= raw)
  }

  /** White space as `str.isspace` has it. */
  lemma WhiteSpace(c: char)
    ensures IsWhitespace(c)
            <==> || c as int in {9, 10, 11, 12, 13, 28, 29, 30, 31, 32, 133, 160, 5760, 8232, 8233, 8239, 8287, 12288}
                 || c as int in {8192, 8193, 8194, 8195, 8196, 8197, 8198, 8199, 8200, 8201, 8202}
  {
  }

  /** The services block ends at a non-empty line that starts neither with a space nor like a comment. */
  lemma BlockEnds(raw: string)
    ensures EndsServices(raw) <==> raw != "" && raw[0] != ' ' && raw[0] != '#'
  {
    assert raw != "" ==> raw[..1] == [raw[0]];
  }

  /** A name stands on a line indented by two or three spaces. */
  lemma NameLines(raw: string)
    ensures IsServiceLine(raw)
            <==> && |raw| >= 2 && raw[0] == ' ' && raw[1] == ' '
                 && (|raw| < 4 || raw[2] != ' ' || raw[3] != ' ')
  {
    assert |raw| >= 2 ==> raw[..2] == [raw[0], raw[1]];
    assert |raw| >= 4 ==> raw[..4] == [raw[0], raw[1], raw[2], raw[3]];
  }

  function NameOn(raw: string): set<string> {
    var key := KeyOfLine(raw);
    if IsServiceLine(raw) && key != "" && key != "{}" then {key} else {}
  }

  /** The names found from a line on, inside or outside the services block. */
  function Scan(lines: seq<string>, inServices: bool): set<string> {
    if lines == [] then {}
    else if lines[0] == "services:" then Scan(lines[1..], true)
    else if inServices && EndsServices(lines[0]) then {}
    else if inServices then NameOn(lines[0]) + Scan(lines[1..], true)
    else Scan(lines[1..], false)
  }

  function ServiceNamesFromText(text: string): set<string> {
    Scan(SplitLines(text), false)
  }

  method ComposeServiceNamesFromText(text: string) returns (names: set<string>)
    ensures names == ServiceNamesFromText(text)
  {
    names := {};
    var inServices := false;
    var lines := SplitLines(text);
    for i := 0 to |lines|
      invariant names + Scan(lines[i..], inServices) == ServiceNamesFromText(text)
    {
      var raw := lines[i];
      assert lines[i..][0] == raw && lines[i..][1..] == lines[i + 1..];
      if raw == "services:" {
        inServices := true;
        continue;
      }
      if inServices && EndsServices(raw) {
        break;
      }
      if inServices && IsServiceLine(raw) {
        var key := KeyOfLine(raw);
        if key != "" && key != "{}" {
          names := names + {key};
        }
      }
    }
  }

  /* ---- Printed lines ---- */

  /** No key at any depth contains a line end. */
  predicate KeysUnbroken(v: Value) {
    match v
    case Leaf(_) => true
    case Map(entries) => forall e :: e in entries ==> Unbroken(e.key) && KeysUnbroken(e.value)
    case List(items) => forall x :: x in items ==> KeysUnbroken(x)
  }

  predicate Printable(s: string) {
    forall c :: c in s ==> ' ' <= c <= '~'
  }

  lemma Hex4Printable(n: nat)
    requires n < 0x1_0000
    ensures Printable(Hex4(n))
  {
  }

  lemma EscapeCharPrintable(c: char)
    ensures Printable(EscapeChar(c))
  {
    if c as int >= 0x1_0000 {
      var v := c as int - 0x1_0000;
      PairPrintable(v / 1024, v - 1024 * (v / 1024));
    } else if |EscapeChar(c)| > 2 {
      Hex4Printable(c as int);
    }
  }

  lemma PairPrintable(high: nat, low: nat)
    requires high < 1024 && low < 1024
    ensures Printable(SurrogatePair(high, low))
  {
    Hex4Printable(0xd800 + high);
    Hex4Printable(0xdc00 + low);
  }

  lemma {:induction false} EscapedPrintable(s: string)
    ensures Printable(EscapeText(s))
  {
    if s == "" {
    } else {
      EscapeCharPrintable(s[0]);
      EscapedPrintable(s[1..]);
    }
  }

  lemma TokenUnbroken(x: Scalar)
    ensures Unbroken(ScalarToken(x))
  {
    match x
    case Str(s) => EscapedPrintable(s);
    case _ =>
  }

  lemma AfterUnbroken(v: Value)
    ensures Unbroken(After(v))
  {
    if v.Leaf? { TokenUnbroken(v.scalar); }
  }

  predicate Indented(lines: seq<string>, indent: nat) {
    forall l :: l in lines ==> Pad(indent) <= l
  }

  lemma IndentedLess(lines: seq<string>, more: nat, less: nat)
    requires Indented(lines, more) && less <= more
    ensures Indented(lines, less)
  {
    forall l | l in lines ensures Pad(less) <= l {
      assert Pad(less) == Pad(more)[..less];
    }
  }

  /** Printed lines are single lines, at least as far right as asked. */
  lemma {:induction false} EmitLines(v: Value, indent: nat)
    requires KeysUnbroken(v)
    ensures AllUnbroken(Emit(v, indent)) && Indented(Emit(v, indent), indent)
    decreases v, 1
  {
    match v
    case Leaf(x) => TokenUnbroken(x);
    case Map(entries) => EmitEntriesLines(entries, indent);
    case List(items) => EmitItemsLines(items, indent);
  }

  lemma {:induction false} EmitEntriesLines(entries: seq<Entry>, indent: nat)
    requires forall e :: e in entries ==> Unbroken(e.key) && KeysUnbroken(e.value)
    ensures AllUnbroken(EmitEntries(entries, indent)) && Indented(EmitEntries(entries, indent), indent)
    decreases entries, 0
  {
    if entries == [] {
    } else {
      assert entries[0] in entries;
      EmitEntriesLines(entries[1..], indent);
      BelowLines(entries[0].value, indent);
      AfterUnbroken(entries[0].value);
      UnfoldEntry(entries[0].key, entries[0].value, indent);
    }
  }

  lemma {:induction false} EmitItemsLines(items: seq<Value>, indent: nat)
    requires forall x :: x in items ==> KeysUnbroken(x)
    ensures AllUnbroken(EmitItems(items, indent)) && Indented(EmitItems(items, indent), indent)
    decreases items, 0
  {
    if items == [] {
    } else {
      assert items[0] in items;
      EmitItemsLines(items[1..], indent);
      BelowLines(items[0], indent);
      AfterUnbroken(items[0]);
      UnfoldItem(items[0], indent);
    }
  }

  lemma {:induction false} BelowLines(v: Value, indent: nat)
    requires KeysUnbroken(v)
    ensures AllUnbroken(Below(v, indent)) && Indented(Below(v, indent), indent + 2) && Indented(Below(v, indent), indent)
    decreases v, 2
  {
    if IsBlock(v) {
      EmitLines(v, indent + 2);
      IndentedLess(Emit(v, indent + 2), indent + 2, indent);
    }
  }

  /* ---- Scanning printed lines ---- */

  predicate HasHeader(lines: seq<string>) {
    "services:" in lines
  }

  /** Before the services block nothing is collected. */
  lemma {:induction false} ScanBefore(lines: seq<string>, rest: seq<string>)
    requires !HasHeader(lines)
    ensures Scan(lines + rest, false) == Scan(rest, false)
  {
    if lines == [] {
      assert lines + rest == rest;
    } else {
      assert (lines + rest)[1..] == lines[1..] + rest;
      ScanBefore(lines[1..], rest);
    }
  }

  /** Lines at column four or deeper are passed over. */
  lemma {:induction false} ScanDeep(lines: seq<string>, rest: seq<string>)
    requires Indented(lines, 4)
    ensures Scan(lines + rest, true) == Scan(rest, true)
  {
    if lines == [] {
      assert lines + rest == rest;
    } else {
      assert (lines + rest)[1..] == lines[1..] + rest;
      assert lines[0] in lines && Pad(4) <= lines[0] && Pad(4) == "    " && lines[0][0] == ' ';
      assert "    "[0] == ' ' && "services:"[0] == 's';
      assert forall l :: l in lines[1..] ==> l in lines;
      ScanDeep(lines[1..], rest);
    }
  }

  /** A service name the scanner can read back. */
  predicate NameOk(name: string) {
    name != "" && name != "{}" && !IsWhitespace(name[0]) && name[|name| - 1] != ':' && Unbroken(name)
  }

  lemma ServiceLine(name: string)
    requires NameOk(name)
    ensures var raw := Pad(2) + name + ":" + ""; raw != "services:" && !EndsServices(raw) && NameOn(raw) == {name}
  {
    var raw := Pad(2) + name + ":" + "";
    var keyed := name + ":";
    assert raw[0] == ' ' && raw[1] == ' ' && raw[2] == name[0];
    assert StripLeft(raw) == keyed by {
      assert raw[1..][1..] == keyed && raw[1..][0] == ' ';
      assert StripLeft(raw) == StripLeft(raw[1..]) == StripLeft(keyed);
      assert keyed[0] == name[0];
    }
    assert keyed[..|keyed| - 1] == name;
    assert StripColons(name) == name;
    assert KeyOfLine(raw) == name;
    assert "  " == raw[..2];
    assert "    "[2] == ' ' && raw[2] != ' ';
    assert "services:"[0] == 's';
  }

  /** Every entry of a services block is a non-empty dictionary. */
  predicate ServicesOk(services: seq<Entry>) {
    forall e :: e in services ==> NameOk(e.key) && e.value.Map? && e.value.entries != [] && KeysUnbroken(e.value)
  }

  lemma {:induction false} ScanServices(services: seq<Entry>, rest: seq<string>)
    requires ServicesOk(services)
    ensures Scan(EmitEntries(services, 2) + rest, true) == Keys(services) + Scan(rest, true)
  {
    if services == [] {
      assert EmitEntries(services, 2) + rest == rest;
    } else {
      var Entry(name, v) := services[0];
      assert services[0] in services && services == [services[0]] + services[1..];
      var head := Pad(2) + name + ":" + "";
      var tail := EmitEntries(services[1..], 2) + rest;
      ScanServices(services[1..], rest);
      BelowLines(v, 2);
      UnfoldEntries(services, 2);
      UnfoldEntry(name, v, 2);
      BlockThenRest(head, Below(v, 2), EmitEntries(services[1..], 2), rest);
      ServiceLine(name);
      ScanDeep(Below(v, 2), tail);
    }
  }

  lemma BlockThenRest(head: string, below: seq<string>, others: seq<string>, rest: seq<string>)
    ensures (([head] + below) + others) + rest == [head] + (below + (others + rest))
    ensures ([head] + (below + (others + rest)))[1..] == below + (others + rest)
  {
  }

  /* ---- The whole file ---- */

  const TOOL := "# Generated by tools/" + "generate-compose/" + "generate-compose.py "
  const FROM := "from spec/instances/" + "compose-service/" + "service-catalogue.json."
  const GENERATED_BY := TOOL + FROM
  const AUTHORITY := "# Do not edit " + "by hand. " + "The Compose service " + "catalogue is authoritative."

  const HEADER := [GENERATED_BY, AUTHORITY]

  function RenderCompose(catalogue: Catalogue, environment: Environment): Result<string, ComposeModel.Error> {
    var model :- Model(catalogue, environment);
    Success(T.Join(HEADER + Emit(Map(model), 0) + [""], '\n'))
  }

  lemma {:induction false} EmitEntriesConcat(a: seq<Entry>, b: seq<Entry>, indent: nat)
    ensures EmitEntries(a + b, indent) == EmitEntries(a, indent) + EmitEntries(b, indent)
  {
    if a == [] {
      assert a + b == b;
    } else {
      assert (a + b)[0] == a[0] && (a + b)[1..] == a[1..] + b;
      UnfoldEntries(a, indent);
      UnfoldEntries(a + b, indent);
      EmitEntriesConcat(a[1..], b, indent);
      AppendTwice(EmitEntry(a[0].key, a[0].value, indent), EmitEntries(a[1..], indent), EmitEntries(b, indent));
    }
  }

  /** No line of a top-level entry is the services header, unless the key starts like it. */
  lemma {:induction false} TopLevelNoHeader(entries: seq<Entry>)
    requires forall e :: e in entries ==> e.key != "" && e.key[0] != 's' && KeysUnbroken(e.value)
    ensures !HasHeader(EmitEntries(entries, 0))
  {
    if entries == [] {
    } else {
      assert entries[0] in entries;
      var Entry(key, v) := entries[0];
      TopLevelNoHeader(entries[1..]);
      UnfoldEntries(entries, 0);
      UnfoldEntry(key, v, 0);
      BelowLines(v, 0);
      NoHeaderInIndented(Below(v, 0));
      assert (Pad(0) + key + ":" + After(v))[0] == key[0];
      assert "services:"[0] == 's';
    }
  }

  lemma NoHeaderInIndented(lines: seq<string>)
    requires Indented(lines, 2)
    ensures !HasHeader(lines)
  {
    assert !(Pad(2) <= "services:") by { assert Pad(2)[0] != "services:"[0]; }
  }

  /** The line printed for an empty services block is not the header line. */
  lemma EmptyServicesLine(back: seq<string>)
    ensures Scan(EmitEntry("services", Map([]), 0) + back, false) == Scan(back, false)
  {
    var lines := EmitEntry("services", Map([]), 0) + back;
    EntryLines("services", Map([]), 0);
    var line := Pad(0) + "services" + ": {}";
    assert lines[0] == line && lines[1..] == back;
    assert |line| != |"services:"|;
  }

  lemma ScanServicesBlock(services: seq<Entry>, back: seq<string>)
    requires ServicesOk(services) && Scan(back, true) == {} && Scan(back, false) == {}
    ensures Scan(EmitEntry("services", Map(services), 0) + back, false) == Keys(services)
  {
    if services == [] {
      EmptyServicesLine(back);
    } else {
      var lines := EmitEntry("services", Map(services), 0) + back;
      EntryLines("services", Map(services), 0);
      var line := Pad(0) + "services" + ":";
      assert line == "services:";
      assert lines[0] == line && lines[1..] == EmitEntries(services, 2) + back;
      ScanServices(services, back);
    }
  }

  lemma {:induction false} CollectedValues(catalogue: Catalogue, env: Environment, targets: set<string>)
    requires env != Default && Collect(catalogue, env, targets).Success?
    ensures forall e :: e in Collect(catalogue, env, targets).value.services ==> e.value.Map? && e.value.entries != []
  {
    if catalogue == [] {
    } else {
      var shorter: Catalogue := catalogue[..|catalogue| - 1];
      var s := catalogue[|catalogue| - 1];
      CollectedValues(shorter, env, targets);
      if IsGenerated(s, env) {
        SetValues(Collect(shorter, env, targets).value.services, s.compose.value.serviceName,
                  Map(ServiceEntries(s, s.compose.value, s.policies[env], env, targets)));
      }
    }
  }

  lemma {:induction false} SetValues(d: seq<Entry>, k: string, v: Value)
    ensures forall e :: e in DictSet(d, k, v) ==> e == Entry(k, v) || e in d
  {
    if d != [] && d[0].key != k {
      SetValues(d[1..], k, v);
    }
  }

  lemma {:induction false} NoHeaderNoNames(lines: seq<string>)
    requires !HasHeader(lines)
    ensures Scan(lines, false) == {}
  {
    if lines == [] {
    } else {
      NoHeaderNoNames(lines[1..]);
    }
  }

  lemma ScanAssembled(parts: Parts, env: Environment)
    requires KeysUnbroken(Map(Assemble(parts, env)))
    requires forall e :: e in parts.services ==> NameOk(e.key) && e.value.Map? && e.value.entries != []
    ensures Scan(EmitEntries(Assemble(parts, env), 0), false) == Keys(parts.services)
  {
    var front, service, back := Preamble(env), Entry("services", Map(parts.services)), Appendix(parts);
    var model := Assemble(parts, env);
    assert model == front + ([service] + back);
    AssembledParts(front, service, back);
    PreambleKeys(env);
    AppendixKeys(parts);
    ScanLines(front, service, back, parts.services);
  }

  lemma AssembledParts(front: seq<Entry>, service: Entry, back: seq<Entry>)
    requires KeysUnbroken(Map(front + ([service] + back)))
    ensures forall e :: e in front + back ==> KeysUnbroken(e.value)
    ensures KeysUnbroken(service.value)
  {
    var model := front + ([service] + back);
    forall e | e in front || e == service || e in back ensures KeysUnbroken(e.value) {
      assert e in model;
    }
  }

  /** The names scanned from a rendered file are the services of the model, and the names the catalogue authorises. */
  lemma ScanInvertsRender(catalogue: Catalogue, environment: Environment)
    requires Model(catalogue, environment).Success? && KeysUnbroken(Map(Model(catalogue, environment).value))
    requires forall n :: n in TargetServices(catalogue, TargetEnvironment(environment)) ==> NameOk(n)
    ensures ServiceNamesFromText(RenderCompose(catalogue, environment).value)
            == Keys(GeneratedServices(catalogue, environment).value)
            == TargetServices(catalogue, TargetEnvironment(environment))
  {
    var env := TargetEnvironment(environment);
    var parts := Collect(catalogue, env, TargetServices(catalogue, env)).value;
    GeneratedGraphIsClosed(catalogue, environment);
    CollectedValues(catalogue, env, TargetServices(catalogue, env));
    forall e | e in parts.services ensures NameOk(e.key) {
      assert e.key in Keys(parts.services);
    }
    ScanAssembled(parts, env);
    RenderedLines(Assemble(parts, env));
  }

  lemma PreambleKeys(env: Environment)
    ensures forall e :: e in Preamble(env) ==> e.key != "" && e.key[0] != 's'
  {
    assert "name"[0] == 'n' && "x-usf-generated"[0] == 'x';
  }

  lemma AppendixKeys(parts: Parts)
    ensures forall e :: e in Appendix(parts) ==> e.key != "" && e.key[0] !in {'s', ' ', '#'}
  {
    assert "volumes"[0] == 'v' && "networks"[0] == 'n' && "x-usf-requirements"[0] == 'x';
  }

  lemma ScanLines(front: seq<Entry>, service: Entry, back: seq<Entry>, services: seq<Entry>)
    requires service == Entry("services", Map(services)) && ServicesOk(services)
    requires forall e :: e in front + back ==> KeysUnbroken(e.value)
    requires forall e :: e in front ==> e.key != "" && e.key[0] != 's'
    requires forall e :: e in back ==> e.key != "" && e.key[0] !in {'s', ' ', '#'}
    ensures Scan(EmitEntries(front + ([service] + back), 0), false) == Keys(services)
  {
    var a, b, c := EmitEntries(front, 0), EmitEntries([service], 0), EmitEntries(back, 0);
    forall e | e in front || e in back ensures KeysUnbroken(e.value) { assert e in front + back; }
    EmitEntriesConcat(front, [service] + back, 0);
    EmitEntriesConcat([service], back, 0);
    UnfoldEntries([service], 0);
    assert [service][1..] == [] && b == EmitEntry("services", Map(services), 0);
    TopLevelNoHeader(front);
    TopLevelNoHeader(back);
    NoHeaderNoNames(c);
    ScanBefore(a, b + c);
    ScanServicesBlock(services, c);
  }

  /** Splitting the rendered text gives the header comments and the printed lines back. */
  lemma RenderedLines(model: seq<Entry>)
    requires model != [] && KeysUnbroken(Map(model))
    ensures ServiceNamesFromText(T.Join(HEADER + Emit(Map(model), 0) + [""], '\n')) == Scan(EmitEntries(model, 0), false)
  {
    var printed := Emit(Map(model), 0);
    var lines := HEADER + printed;
    EmitLines(Map(model), 0);
    UnlinesIsJoin(lines);
    HeaderLines();
    assert AllUnbroken(lines);
    SplitInvertsUnlines(lines);
    ScanBefore(HEADER, printed);
  }

  lemma UnbrokenJoined(a: string, b: string)
    requires Unbroken(a) && Unbroken(b)
    ensures Unbroken(a + b)
  {
  }

  lemma ToolUnbroken()
    ensures Unbroken(TOOL)
  {
    var a, b, c := "# Generated by tools/", "generate-compose/", "generate-compose.py ";
    UnbrokenJoined(a, b);
    UnbrokenJoined(a + b, c);
  }

  lemma FromUnbroken()
    ensures Unbroken(FROM)
  {
    var a, b, c := "from spec/instances/", "compose-service/", "service-catalogue.json.";
    UnbrokenJoined(a, b);
    UnbrokenJoined(a + b, c);
  }

  lemma AuthorityUnbroken()
    ensures Unbroken(AUTHORITY)
  {
    var a, b, c, d := "# Do not edit ", "by hand. ", "The Compose service ", "catalogue is authoritative.";
    UnbrokenJoined(a, b);
    UnbrokenJoined(a + b, c);
    UnbrokenJoined(a + b + c, d);
  }

  lemma HeaderLines()
    ensures AllUnbroken(HEADER) && !HasHeader(HEADER)
  {
    ToolUnbroken();
    FromUnbroken();
    UnbrokenJoined(TOOL, FROM);
    AuthorityUnbroken();
    assert GENERATED_BY[0] == '#' && AUTHORITY[0] == '#' && "services:"[0] == 's';
  }
}
