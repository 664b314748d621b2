/** Which scalars share a token. */
module YamlScalars {
  import opened Wrappers
  import opened Text
  import opened Yaml

  /** The ASCII characters a text may hold to go without quotes. */
  lemma SafeIff(s: string)
    requires forall c :: c in s ==> c < '\U{80}'
    ensures IsSafe(s) <==> forall c :: c in s ==>
              (48 <= c as int <= 57 || 65 <= c as int <= 90 || 97 <= c as int <= 122 || c in "-_./:")
  {
    assert "-_./:"[0] == '-' && "-_./:"[1] == '_' && "-_./:"[2] == '.' && "-_./:"[3] == '/' && "-_./:"[4] == ':';
  }

  /** What a quoted body says of each character: itself if it can be printed, the short escape if there is one, else its
      number. */
  lemma EscapedAs(c: char)
    ensures 32 <= c as int <= 126 && c as int !in {34, 92} ==> EscapeChar(c) == [c]
    ensures c as int in {34, 92} ==> EscapeChar(c) == ['\\', c]
    ensures c as int == 8 ==> EscapeChar(c) == "\\b"
    ensures c as int == 9 ==> EscapeChar(c) == "\\t"
    ensures c as int == 10 ==> EscapeChar(c) == "\\n"
    ensures c as int == 12 ==> EscapeChar(c) == "\\f"
    ensures c as int == 13 ==> EscapeChar(c) == "\\r"
    ensures (c as int < 32 && c as int !in {8, 9, 10, 12, 13}) || 127 <= c as int < 0x1_0000 ==>
              EscapeChar(c) == "\\u" + Hex4(c as int)
  {
  }

  function HexValue(c: char): Option<nat> {
    if IsDigit(c) then Some(c as int - '0' as int)
    else if 'a' <= c <= 'f' then Some(c as int - 'a' as int + 10)
    else None
  }

  function Hex4Value(s: string): Option<nat>
    requires |s| == 4
  {
    match (HexValue(s[0]), HexValue(s[1]), HexValue(s[2]), HexValue(s[3]))
    case (Some(a), Some(b), Some(c), Some(d)) => Some(4096 * a + 256 * b + 16 * c + d)
    case _ => None
  }

  function CharOf(v: nat): Option<char> {
    if v < 0xd800 || 0xe000 <= v < 0x11_0000 then Some(v as char) else None
  }

  /** The character after a backslash-u, possibly written as a surrogate pair, and what follows. */
  function UnescapeUnicode(s: string): Option<(char, string)> {
    if |s| < 6 || Hex4Value(s[2..6]).None? then None
    else
      var v := Hex4Value(s[2..6]).value;
      if 0xd800 <= v < 0xdc00 then
        if |s| < 12 || Hex4Value(s[8..12]).None? || Hex4Value(s[8..12]).value < 0xdc00 then None
        else match CharOf(0x1_0000 + 1024 * (v - 0xd800) + (Hex4Value(s[8..12]).value - 0xdc00))
          case None => None
          case Some(c) => Some((c, s[12..]))
      else match CharOf(v)
        case None => None
        case Some(c) => Some((c, s[6..]))
  }

  /** Reads one character of a quoted body. */
  function UnescapeOne(s: string): Option<(char, string)> {
    if s == "" then None
    else if s[0] != '\\' then Some((s[0], s[1..]))
    else if |s| < 2 then None
    else if s[1] == 'u' then UnescapeUnicode(s)
    else
      var c := if s[1] == 'n' then '\n' else if s[1] == 'r' then '\r' else if s[1] == 't' then '\t'
               else if s[1] == 'b' then '\U{8}' else if s[1] == 'f' then '\U{c}' else s[1];
      Some((c, s[2..]))
  }

  lemma HexDigitValue(n: nat)
    requires n < 16
    ensures HexValue(HexDigit(n)) == Some(n)
  {
  }

  lemma Hex4RoundTrip(n: nat)
    requires n < 0x1_0000
    ensures |Hex4(n)| == 4 && Hex4Value(Hex4(n)) == Some(n)
  {
    var a := n / 16;
    var b := a / 16;
    HexDigitValue(b / 16);
    HexDigitValue(b % 16);
    HexDigitValue(a % 16);
    HexDigitValue(n % 16);
  }

  lemma UnescapeUnit(c: char, rest: string)
    requires c as int < 0x1_0000
    ensures UnescapeUnicode("\\u" + Hex4(c as int) + rest) == Some((c, rest))
  {
    var s := "\\u" + Hex4(c as int) + rest;
    assert s[2..6] == Hex4(c as int) && s[6..] == rest;
    Hex4RoundTrip(c as int);
  }

  lemma PairSlices(a: string, h: string, b: string, l: string, rest: string)
    requires |a| == |b| == 2 && |h| == |l| == 4
    ensures var s := a + h + b + l + rest; s[2..6] == h && s[8..12] == l && s[12..] == rest
  {
    var s := a + h + b + l + rest;
    assert s[2..6] == h;
    assert s[8..12] == l;
    assert s[12..] == rest;
  }

  lemma UnescapePairText(h: string, high: nat, l: string, low: nat, rest: string)
    requires |h| == 4 && Hex4Value(h) == Some(0xd800 + high) && high < 1024
    requires |l| == 4 && Hex4Value(l) == Some(0xdc00 + low) && low < 1024
    ensures UnescapeUnicode("\\u" + h + "\\u" + l + rest) == Some(((0x1_0000 + 1024 * high + low) as char, rest))
  {
    PairSlices("\\u", h, "\\u", l, rest);
  }

  lemma UnescapeSurrogates(high: nat, low: nat, rest: string)
    requires high < 1024 && low < 1024
    ensures UnescapeUnicode(SurrogatePair(high, low) + rest) == Some(((0x1_0000 + 1024 * high + low) as char, rest))
  {
    Hex4RoundTrip(0xd800 + high);
    Hex4RoundTrip(0xdc00 + low);
    UnescapePairText(Hex4(0xd800 + high), high, Hex4(0xdc00 + low), low, rest);
  }

  lemma UnescapeAstral(c: char, rest: string)
    requires c as int >= 0x1_0000
    ensures UnescapeUnicode(EscapeChar(c) + rest) == Some((c, rest))
  {
    var v := c as int - 0x1_0000;
    var high := v / 1024;
    var low := v - 1024 * high;
    EscapeAstral(c);
    UnescapeSurrogates(high, low, rest);
    assert 0x1_0000 + 1024 * high + low == c as int;
  }

  lemma EscapeAstral(c: char)
    requires c as int >= 0x1_0000
    ensures var v := c as int - 0x1_0000; EscapeChar(c) == SurrogatePair(v / 1024, v - 1024 * (v / 1024))
  {
  }

  lemma UnescapeInverts(c: char, rest: string)
    ensures UnescapeOne(EscapeChar(c) + rest) == Some((c, rest))
  {
    if |EscapeChar(c)| <= 2 {
    } else {
      UnescapeLong(c, rest);
    }
  }

  lemma UnescapeLong(c: char, rest: string)
    requires |EscapeChar(c)| > 2
    ensures UnescapeOne(EscapeChar(c) + rest) == Some((c, rest))
  {
    var e := EscapeChar(c);
    var s := e + rest;
    assert e[0] == '\\' && e[1] == 'u';
    assert s[0] == e[0] && s[1] == e[1];
    assert UnescapeOne(s) == UnescapeUnicode(s);
    if c as int < 0x1_0000 {
      UnescapeUnit(c, rest);
    } else {
      UnescapeAstral(c, rest);
    }
  }

  lemma {:induction false} EscapeInjective(a: string, b: string)
    requires EscapeText(a) == EscapeText(b)
    ensures a == b
  {
    if a == "" {
    } else {
      UnescapeInverts(a[0], EscapeText(a[1..]));
      UnescapeInverts(b[0], EscapeText(b[1..]));
      EscapeInjective(a[1..], b[1..]);
      assert a == [a[0]] + a[1..] && b == [b[0]] + b[1..];
    }
  }

  lemma QuoteInjective(a: string, b: string)
    requires Quote(a) == Quote(b)
    ensures a == b
  {
    var qa, qb := Quote(a), Quote(b);
    assert qa[1..|qa| - 1] == EscapeText(a) && qb[1..|qb| - 1] == EscapeText(b);
    EscapeInjective(a, b);
  }

  /** A number and the text that spells it; text that would need quotes spells no number. */
  predicate Spells(a: Scalar, b: Scalar) {
    a.Number? && b.Str? && b.s == a.text && IsPlain(b.s)
  }

  lemma TokenStart(x: Scalar)
    ensures x.Str? && !IsPlain(x.s) ==> ScalarToken(x)[0] == '"'
    ensures !(x.Str? && !IsPlain(x.s)) ==> ScalarToken(x) != "" && ScalarToken(x)[0] != '"'
    ensures x.Number? ==> ScalarToken(x) != "true" && ScalarToken(x) != "false" && ScalarToken(x) != "null"
  {
    match x
    case Number(text) =>
      assert IsNumberChar(text[0]) && forall i :: 0 <= i < |text| ==> IsNumberChar(text[i]);
      assert "true"[0] == 't' && "null"[2] == 'l' && "false"[2] == 'l';
    case Str(s) => if IsPlain(s) { assert s[0] in s; }
    case _ =>
  }

  /** Scalars share a token only when they are equal, or a number and the unquoted text spelling it. */
  lemma SameTokenIff(a: Scalar, b: Scalar)
    ensures ScalarToken(a) == ScalarToken(b) <==> a == b || Spells(a, b) || Spells(b, a)
  {
    TokenStart(a);
    TokenStart(b);
    if ScalarToken(a) == ScalarToken(b) && a.Str? && b.Str? && !IsPlain(a.s) {
      QuoteInjective(a.s, b.s);
    }
    assert "true"[0] != "false"[0] && "true"[0] != "null"[0] && "false"[0] != "null"[0];
  }
}
