/** Decoding of JSON Pointers (sections 3 and 4 of RFC 6901) by two whole-string replacements. */
module JsonPointer {
  import opened Wrappers
  import opened Text

  datatype Error = NotAPointer(path: string)

  /** `s.replace("~" + digit, [out])`: every left-to-right occurrence, without rescanning the output. */
  function ReplaceEscape(s: string, digit: char, out: char): string {
    if |s| >= 2 && s[0] == '~' && s[1] == digit then [out] + ReplaceEscape(s[2..], digit, out)
    else if s == [] then []
    else [s[0]] + ReplaceEscape(s[1..], digit, out)
  }

  function UnescapeToken(token: string): string {
    ReplaceEscape(ReplaceEscape(token, '1', '/'), '0', '~')
  }

  function UnescapeAll(tokens: seq<string>): (r: seq<string>)
    ensures |r| == |tokens|
  {
    seq(|tokens|, i requires 0 <= i < |tokens| => UnescapeToken(tokens[i]))
  }

  function PointerTokens(path: string): Result<seq<string>, Error> {
    if path == "" || path[0] != '/' then Failure(NotAPointer(path))
    else if path == "/" then Success([])
    else Success(UnescapeAll(Split(path[1..], '/')))
  }

  /** The single-pass reading of the two escapes that section 4 of RFC 6901 describes. */
  function UnescapeOnePass(s: string): string {
    if |s| >= 2 && s[0] == '~' && s[1] == '1' then ['/'] + UnescapeOnePass(s[2..])
    else if |s| >= 2 && s[0] == '~' && s[1] == '0' then ['~'] + UnescapeOnePass(s[2..])
    else if s == [] then []
    else [s[0]] + UnescapeOnePass(s[1..])
  }

  function EscapeToken(token: string): string {
    if token == "" then ""
    else (if token[0] == '~' then "~0" else if token[0] == '/' then "~1" else [token[0]]) + EscapeToken(token[1..])
  }

  function EscapeAll(tokens: seq<string>): (r: seq<string>)
    ensures |r| == |tokens|
  {
    seq(|tokens|, i requires 0 <= i < |tokens| => EscapeToken(tokens[i]))
  }

  /** The pointer naming a token list: each token escaped and preceded by a slash. */
  function Pointer(tokens: seq<string>): string {
    if tokens == [] then "" else "/" + EscapeToken(tokens[0]) + Pointer(tokens[1..])
  }

  /** The order of the two replacements is the right one on every text: they compute the single-pass reading. */
  lemma {:induction false} TwoPassIsOnePass(s: string)
    ensures UnescapeToken(s) == UnescapeOnePass(s)
  {
    var r := ReplaceEscape(s, '1', '/');
    if |s| >= 2 && s[0] == '~' && s[1] == '1' {
      TwoPassIsOnePass(s[2..]);
      assert r[1..] == ReplaceEscape(s[2..], '1', '/');
    } else if |s| >= 2 && s[0] == '~' && s[1] == '0' {
      TwoPassIsOnePass(s[2..]);
      assert s[1..][1..] == s[2..];
      assert r == ['~'] + ReplaceEscape(s[1..], '1', '/');
      assert ReplaceEscape(s[1..], '1', '/') == ['0'] + ReplaceEscape(s[2..], '1', '/');
      assert r[2..] == ReplaceEscape(s[2..], '1', '/');
    } else if s != "" {
      TwoPassIsOnePass(s[1..]);
      assert r[1..] == ReplaceEscape(s[1..], '1', '/');
    }
  }

  /** The two replacements in the opposite order. */
  function UnescapeSwapped(token: string): string {
    ReplaceEscape(ReplaceEscape(token, '0', '~'), '1', '/')
  }

  function EscapeSlashes(token: string): string {
    if token == "" then "" else (if token[0] == '/' then "~1" else [token[0]]) + EscapeSlashes(token[1..])
  }

  /** The text of an escaped slash occurs in a token. */
  predicate SpellsSlash(token: string) {
    |token| >= 2 && ((token[0] == '~' && token[1] == '1') || SpellsSlash(token[1..]))
  }

  lemma {:induction false} TildesFirst(token: string)
    ensures ReplaceEscape(EscapeToken(token), '0', '~') == EscapeSlashes(token)
  {
    if token == "" {
    } else {
      var rest := EscapeToken(token[1..]);
      TildesFirst(token[1..]);
      if token[0] == '~' {
        assert EscapeToken(token)[2..] == rest;
      } else if token[0] == '/' {
        assert EscapeToken(token)[1..] == "1" + rest && ("1" + rest)[1..] == rest;
      } else {
        assert EscapeToken(token)[1..] == rest;
      }
    }
  }

  lemma {:induction false} SlashesLast(token: string)
    ensures ReplaceEscape(EscapeSlashes(token), '1', '/') == token <==> !SpellsSlash(token)
  {
    if token == "" {
    } else {
      var text, rest := EscapeSlashes(token), EscapeSlashes(token[1..]);
      SlashesLast(token[1..]);
      assert token == [token[0]] + token[1..];
      if token[0] == '/' {
        assert text[2..] == rest;
      } else {
        assert text == [token[0]] + rest && text[1..] == rest;
        if |token| >= 2 {
          assert rest[0] == '1' <==> token[1] == '1';
        }
      }
    }
  }

  /** In the opposite order the replacements undo escaping only for tokens that do not spell an escaped slash. */
  lemma SwappedPassesDiffer(token: string)
    ensures UnescapeSwapped(EscapeToken(token)) == token <==> !SpellsSlash(token)
  {
    TildesFirst(token);
    SlashesLast(token);
  }

  lemma {:induction false} OnePassInvertsEscape(token: string)
    ensures UnescapeOnePass(EscapeToken(token)) == token
  {
    if token == "" {
    } else {
      OnePassInvertsEscape(token[1..]);
      var rest := EscapeToken(token[1..]);
      var e := EscapeToken(token);
      if token[0] == '~' || token[0] == '/' {
        assert e[2..] == rest;
      } else {
        assert e[1..] == rest;
      }
      assert token == [token[0]] + token[1..];
    }
  }

  lemma {:induction false} EscapedHasNoSlash(token: string)
    ensures '/' !in EscapeToken(token)
  {
    if token == "" {
    } else {
      EscapedHasNoSlash(token[1..]);
    }
  }

  lemma {:induction false} PointerIsJoin(tokens: seq<string>)
    requires tokens != []
    ensures Pointer(tokens) == "/" + Join(EscapeAll(tokens), '/')
  {
    var parts := EscapeAll(tokens);
    if |tokens| > 1 {
      PointerIsJoin(tokens[1..]);
      assert parts[1..] == EscapeAll(tokens[1..]);
    } else {
      assert Pointer(tokens[1..]) == "";
    }
  }

  lemma UnescapeInvertsEscape(tokens: seq<string>)
    ensures UnescapeAll(EscapeAll(tokens)) == tokens
  {
    forall i | 0 <= i < |tokens| ensures UnescapeToken(EscapeToken(tokens[i])) == tokens[i] {
      TwoPassIsOnePass(EscapeToken(tokens[i]));
      OnePassInvertsEscape(tokens[i]);
    }
  }

  /** Decoding undoes encoding on exactly the token lists other than the empty one, whose pointer "" is rejected,
      and the single empty token, whose pointer "/" is read as the whole document. */
  lemma DecodeInvertsEncode(tokens: seq<string>)
    ensures PointerTokens(Pointer(tokens)) == Success(tokens) <==> tokens != [] && tokens != [""]
    ensures tokens == [] ==> PointerTokens(Pointer(tokens)).Failure?
    ensures tokens == [""] ==> PointerTokens(Pointer(tokens)) == Success([])
  {
    if tokens != [] {
      var parts := EscapeAll(tokens);
      PointerIsJoin(tokens);
      forall p | p in parts ensures '/' !in p {
        var i :| 0 <= i < |parts| && parts[i] == p;
        EscapedHasNoSlash(tokens[i]);
      }
      SplitJoin(parts, '/');
      UnescapeInvertsEscape(tokens);
      var path := Pointer(tokens);
      assert path[1..] == Join(parts, '/');
      if parts == [""] {
        assert tokens[0] == UnescapeAll(parts)[0];
        assert UnescapeToken("") == "";
        assert tokens == [""];
      }
    }
  }
}
