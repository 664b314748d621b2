/** The numbers that subscripts of a pointer spell. */
module Subscripts {
  import opened Wrappers
  import opened Text

  predicate IsSpace(c: char) {
    c == ' ' || '\t' <= c <= '\r'
  }

  function TrimLeft(s: string): string {
    if s != "" && IsSpace(s[0]) then TrimLeft(s[1..]) else s
  }

  function TrimRight(s: string): string {
    if s != "" && IsSpace(s[|s| - 1]) then TrimRight(s[..|s| - 1]) else s
  }

  /** The value of digits that may be grouped by single underscores. */
  function Grouped(s: string): Option<nat> {
    if s == "" || !IsDigit(s[|s| - 1]) then None
    else
      var d := s[|s| - 1] as int - '0' as int;
      if |s| == 1 then Some(d)
      else
        var cut := if s[|s| - 2] == '_' then |s| - 2 else |s| - 1;
        match Grouped(s[..cut])
        case None => None
        case Some(v) => Some(10 * v + d)
  }

  function ReadSigned(s: string): Option<int> {
    if s == "" then None
    else
      var signed := s[0] == '-' || s[0] == '+';
      match Grouped(if signed then s[1..] else s)
      case None => None
      case Some(v) =>
        var value: int := v;
        Some(if s[0] == '-' then -value else value)
  }

  /** `int(token)` on ASCII text; `None` stands for the exception. */
  function ParseInt(token: string): Option<int> {
    ReadSigned(TrimRight(TrimLeft(token)))
  }

  /* ---- What a subscript spells ---- */

  const WHITE_SPACE := {' ', '\t', '\n', '\U{b}', '\U{c}', '\r'}

  predicate AllWhite(s: string) {
    forall c :: c in s ==> c in WHITE_SPACE
  }

  /** Digits with single underscores between them. */
  predicate Numeral(s: string) {
    && s != "" && s[0] != '_' && s[|s| - 1] != '_'
    && (forall c :: c in s ==> IsDigit(c) || c == '_')
    && (forall i :: 0 <= i < |s| - 1 && s[i] == '_' ==> s[i + 1] != '_')
  }

  function WithoutUnderscores(s: string): string {
    if s == "" then ""
    else WithoutUnderscores(s[..|s| - 1]) + if s[|s| - 1] == '_' then "" else [s[|s| - 1]]
  }

  datatype Sign = Bare | Plus | Minus

  function SignText(sign: Sign): string {
    match sign
    case Bare => ""
    case Plus => "+"
    case Minus => "-"
  }

  function Signed(sign: Sign, n: nat): int {
    var value: int := n;
    if sign == Minus then -value else value
  }

  /** The token is white space around a sign, if any, and a numeral, whose digits stand for a number. */
  predicate Spelling(token: string, v: int, before: string, sign: Sign, body: string, after: string) {
    && AllWhite(before) && AllWhite(after) && Numeral(body)
    && token == before + SignText(sign) + body + after
    && DecimalValue(WithoutUnderscores(body)).Some? && v == Signed(sign, DecimalValue(WithoutUnderscores(body)).value)
  }

  ghost predicate Spells(token: string, v: int) {
    exists before, sign, body, after :: Spelling(token, v, before, sign, body, after)
  }

  lemma {:induction false} GroupedIff(s: string)
    ensures Grouped(s).Some? <==> Numeral(s)
    ensures Grouped(s).Some? ==> DecimalValue(WithoutUnderscores(s)) == Grouped(s)
  {
    if s == "" || !IsDigit(s[|s| - 1]) {
      assert s != "" ==> s[|s| - 1] in s;
    } else if |s| == 1 {
      assert s[..0] == "";
      assert WithoutUnderscores(s) == "" + [s[0]];
      assert [s[0]][..0] == "";
    } else {
      var n := |s| - 1;
      var cut := if s[n - 1] == '_' then n - 1 else n;
      GroupedIff(s[..cut]);
      NumeralStep(s, cut);
      WithoutStep(s, cut);
      var w := WithoutUnderscores(s);
      assert w[..|w| - 1] == WithoutUnderscores(s[..cut]);
    }
  }

  lemma NumeralStep(s: string, cut: nat)
    requires |s| > 1 && IsDigit(s[|s| - 1]) && cut == if s[|s| - 2] == '_' then |s| - 2 else |s| - 1
    ensures Numeral(s) <==> Numeral(s[..cut])
  {
    var t := s[..cut];
    assert cut > 0 ==> t[cut - 1] == s[cut - 1] && t[0] == s[0];
    assert forall i :: 0 <= i < cut ==> t[i] == s[i];
    if Numeral(t) {
      forall c | c in s ensures IsDigit(c) || c == '_' {
        var i :| 0 <= i < |s| && s[i] == c;
        assert i < cut ==> t[i] in t;
      }
    }
    if Numeral(s) {
      assert s[0] in s;
      forall c | c in t ensures IsDigit(c) || c == '_' {
        assert c in s;
      }
    }
  }

  lemma WithoutSnoc(s: string, c: char)
    ensures WithoutUnderscores(s + [c]) == WithoutUnderscores(s) + if c == '_' then "" else [c]
  {
    assert (s + [c])[..|s|] == s;
  }

  lemma WithoutStep(s: string, cut: nat)
    requires |s| > 1 && IsDigit(s[|s| - 1]) && cut == if s[|s| - 2] == '_' then |s| - 2 else |s| - 1
    ensures WithoutUnderscores(s) == WithoutUnderscores(s[..cut]) + [s[|s| - 1]]
  {
    var n := |s| - 1;
    assert s == s[..n] + [s[n]];
    WithoutSnoc(s[..n], s[n]);
    if cut < n {
      assert s[..n] == s[..cut] + ['_'];
      WithoutSnoc(s[..cut], '_');
      assert WithoutUnderscores(s[..cut]) + "" == WithoutUnderscores(s[..cut]);
    }
  }

  lemma {:induction false} TrimLeftSplit(s: string) returns (before: string)
    ensures AllWhite(before) && s == before + TrimLeft(s)
    ensures TrimLeft(s) != "" ==> TrimLeft(s)[0] !in WHITE_SPACE
  {
    if s != "" && IsSpace(s[0]) {
      before := TrimLeftSplit(s[1..]);
      before := [s[0]] + before;
    } else {
      before := "";
    }
  }

  lemma {:induction false} TrimRightSplit(s: string) returns (after: string)
    ensures AllWhite(after) && s == TrimRight(s) + after
    ensures TrimRight(s) != "" ==> TrimRight(s)[|TrimRight(s)| - 1] !in WHITE_SPACE
  {
    if s != "" && IsSpace(s[|s| - 1]) {
      var n := |s| - 1;
      var rest := TrimRightSplit(s[..n]);
      after := rest + [s[n]];
      assert s == s[..n] + [s[n]] == (TrimRight(s[..n]) + rest) + [s[n]] == TrimRight(s[..n]) + after;
    } else {
      after := "";
    }
  }

  lemma {:induction false} TrimLeftOff(before: string, s: string)
    requires AllWhite(before) && s != "" && s[0] !in WHITE_SPACE
    ensures TrimLeft(before + s) == s
  {
    if before == "" {
      assert before + s == s;
    } else {
      assert before[0] in before && (before + s)[1..] == before[1..] + s;
      TrimLeftOff(before[1..], s);
    }
  }

  lemma {:induction false} TrimRightOff(s: string, after: string)
    requires AllWhite(after) && s != "" && s[|s| - 1] !in WHITE_SPACE
    ensures TrimRight(s + after) == s
  {
    if after == "" {
      assert s + after == s;
    } else {
      var n := |after| - 1;
      assert after[n] in after && (s + after)[..|s| + n] == s + after[..n];
      TrimRightOff(s, after[..n]);
    }
  }

  /** `int` reads a token as a number exactly when the token spells it. */
  lemma ParseIntIff(token: string, v: int)
    ensures ParseInt(token) == Some(v) <==> Spells(token, v)
  {
    if ParseInt(token) == Some(v) {
      ParsedSpells(token, v);
    }
    if before, sign, body, after :| Spelling(token, v, before, sign, body, after) {
      SpelledParses(token, v, before, sign, body, after);
    }
  }

  lemma SignSplit(s: string) returns (sign: Sign, body: string)
    requires ReadSigned(s).Some?
    ensures s == SignText(sign) + body && Grouped(body).Some? && ReadSigned(s).value == Signed(sign, Grouped(body).value)
  {
    sign := if s[0] == '-' then Minus else if s[0] == '+' then Plus else Bare;
    body := if sign.Bare? then s else s[1..];
  }

  lemma SignOff(sign: Sign, body: string)
    requires Grouped(body).Some? && body[0] != '-' && body[0] != '+'
    ensures ReadSigned(SignText(sign) + body) == Some(Signed(sign, Grouped(body).value))
  {
    var s := SignText(sign) + body;
    match sign
    case Bare => assert s == body;
    case Plus => assert s[1..] == body;
    case Minus => assert s[1..] == body;
  }

  lemma ParsedSpells(token: string, v: int)
    requires ParseInt(token) == Some(v)
    ensures Spells(token, v)
  {
    var s := TrimRight(TrimLeft(token));
    var before := TrimLeftSplit(token);
    var after := TrimRightSplit(TrimLeft(token));
    var sign, body := SignSplit(s);
    GroupedIff(body);
    Regroup(before, SignText(sign), body, after);
    assert Spelling(token, v, before, sign, body, after);
  }

  lemma Regroup(a: string, b: string, c: string, d: string)
    ensures a + ((b + c) + d) == a + b + c + d
  {
  }

  lemma SpelledParses(token: string, v: int, before: string, sign: Sign, body: string, after: string)
    requires Spelling(token, v, before, sign, body, after)
    ensures ParseInt(token) == Some(v)
  {
    var s := SignText(sign) + body;
    EndsOfNumeral(sign, body);
    Regroup(before, SignText(sign), body, after);
    assert (s + after)[0] == s[0];
    TrimLeftOff(before, s + after);
    TrimRightOff(s, after);
    GroupedIff(body);
    SignOff(sign, body);
  }

  lemma EndsOfNumeral(sign: Sign, body: string)
    requires Numeral(body)
    ensures IsDigit(body[0]) && IsDigit(body[|body| - 1])
    ensures var s := SignText(sign) + body; s[0] !in WHITE_SPACE && s[|s| - 1] !in WHITE_SPACE
  {
    assert body[0] in body && body[|body| - 1] in body;
    assert (SignText(sign) + body)[|SignText(sign) + body| - 1] == body[|body| - 1];
  }

  lemma {:induction false} DigitsStay(s: string)
    requires forall i :: 0 <= i < |s| ==> IsDigit(s[i])
    ensures WithoutUnderscores(s) == s
  {
    if s == "" {
    } else {
      var n := |s| - 1;
      var t, c := s[..n], s[n];
      DigitsStay(t);
      WithoutSnoc(t, c);
      assert t + [c] == s;
    }
  }

  lemma DecimalNumeral(n: nat)
    ensures Numeral(Decimal(n)) && DecimalValue(WithoutUnderscores(Decimal(n))) == Some(n)
  {
    var d := Decimal(n);
    forall i | 0 <= i < |d| ensures IsDigit(d[i]) {
      assert d[i] in d;
    }
    DigitsStay(d);
    DecimalRoundTrip(n);
  }

  /** A decimal numeral spells its number, with a minus sign the opposite one; a plus sign and surrounding white space
      change nothing. */
  lemma DecimalParses(n: nat, before: string, sign: Sign, after: string)
    requires AllWhite(before) && AllWhite(after)
    ensures ParseInt(before + SignText(sign) + Decimal(n) + after) == Some(Signed(sign, n))
  {
    DecimalNumeral(n);
    SpelledParses(before + SignText(sign) + Decimal(n) + after, Signed(sign, n), before, sign, Decimal(n), after);
  }

  lemma PlainDecimal(n: nat)
    ensures var value: int := n; ParseInt(Decimal(n)) == Some(value)
  {
    var d := Decimal(n);
    DecimalParses(n, "", Bare, "");
    assert "" + SignText(Bare) + d + "" == d;
  }

  lemma MinusDecimal(n: nat)
    ensures var value: int := n; ParseInt("-" + Decimal(n)) == Some(-value)
  {
    var d := Decimal(n);
    DecimalParses(n, "", Minus, "");
    assert "" + SignText(Minus) + d + "" == SignText(Minus) + d;
  }

  lemma OuterSpelling(before: string, token: string, after: string, v: int, a: string, sign: Sign, body: string, b: string)
    requires AllWhite(before) && AllWhite(after) && Spelling(token, v, a, sign, body, b)
    ensures Spells(before + token + after, v)
  {
    var s := SignText(sign);
    assert before + (a + s + body + b) + after == (before + a) + s + body + (b + after);
    assert Spelling(before + token + after, v, before + a, sign, body, b + after);
  }

  /** White space around a token changes nothing. */
  lemma PaddingIgnored(before: string, token: string, after: string)
    requires AllWhite(before) && AllWhite(after)
    ensures ParseInt(before + token + after) == ParseInt(token)
  {
    var padded := before + token + after;
    if v :| ParseInt(token) == Some(v) {
      ParseIntIff(token, v);
      var a, sign, body, b :| Spelling(token, v, a, sign, body, b);
      OuterSpelling(before, token, after, v, a, sign, body, b);
      ParseIntIff(padded, v);
    } else if v :| ParseInt(padded) == Some(v) {
      ParseIntIff(padded, v);
      var a, sign, body, b :| Spelling(padded, v, a, sign, body, b);
      InnerSpelling(before, token, after, v, a, sign, body, b);
      ParseIntIff(token, v);
    }
  }

  /** The white space around a padded token lies within the white space around its numeral. */
  lemma InnerSpelling(before: string, token: string, after: string, v: int, a: string, sign: Sign, body: string, b: string)
    requires AllWhite(before) && AllWhite(after) && Spelling(before + token + after, v, a, sign, body, b)
    ensures Spells(token, v)
  {
    var s := SignText(sign) + body;
    EndsOfNumeral(sign, body);
    assert before + token + after == a + s + b;
    WhiteOutside(before, token, after, a, s, b);
    var a', b' := a[|before|..], b[..|b| - |after|];
    assert token == a' + s + b' == a' + SignText(sign) + body + b';
    assert Spelling(token, v, a', sign, body, b');
  }

  lemma WhiteOutside(before: string, token: string, after: string, a: string, s: string, b: string)
    requires AllWhite(before) && AllWhite(after) && before + token + after == a + s + b
    requires s != "" && s[0] !in WHITE_SPACE && s[|s| - 1] !in WHITE_SPACE
    ensures |before| <= |a| && |after| <= |b| && token == a[|before|..] + s + b[..|b| - |after|]
  {
    var padded := before + token + after;
    forall i | 0 <= i < |before| ensures padded[i] in WHITE_SPACE {
      assert before[i] in before;
    }
    forall i | |before| + |token| <= i < |padded| ensures padded[i] in WHITE_SPACE {
      assert padded[i] == after[i - |before| - |token|] && after[i - |before| - |token|] in after;
    }
    assert padded[|a|] == s[0] && padded[|a| + |s| - 1] == s[|s| - 1];
    assert token == padded[|before|..|before| + |token|];
  }

  lemma HasDigit(token: string, v: int, before: string, sign: Sign, body: string, after: string)
    requires Spelling(token, v, before, sign, body, after)
    ensures exists c :: c in token && IsDigit(c)
  {
    EndsOfNumeral(sign, body);
    assert token[|before| + |SignText(sign)|] == body[0];
  }

  /** A token without a digit is no number. */
  lemma NoDigitNoNumber(token: string)
    requires forall c :: c in token ==> !IsDigit(c)
    ensures ParseInt(token).None?
  {
    if v :| ParseInt(token) == Some(v) {
      ParseIntIff(token, v);
      var before, sign, body, after :| Spelling(token, v, before, sign, body, after);
      HasDigit(token, v, before, sign, body, after);
    }
  }
}
