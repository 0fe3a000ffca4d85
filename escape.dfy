/**
 * `escapeJs`, defined identically in admin/admin.js and admin/photos.js: it
 * makes a title safe to paste between single quotes in the JavaScript of an
 * inline `onclick="..."` handler. It is a chain of five global replaces,
 * backslash first.
 */
module Escape {
  import opened Wrappers

  /** `s.replace(/c/g, rep)` for a one-character pattern. */
  function ReplaceAll(s: string, c: char, rep: string): (r: string)
    ensures c !in s ==> r == s
    ensures c !in rep ==> c !in r
  {
    if s == [] then []
    else (if s[0] == c then rep else [s[0]]) + ReplaceAll(s[1..], c, rep)
  }

  /** A replace adds no character beyond those of the replacement. */
  lemma {:induction false} ReplaceAllAdds(s: string, c: char, rep: string, d: char)
    requires d !in s && d !in rep
    ensures d !in ReplaceAll(s, c, rep)
  {
    if s != [] {
      ReplaceAllAdds(s[1..], c, rep, d);
    }
  }

  lemma {:induction false} ReplaceAllAppend(a: string, b: string, c: char, rep: string)
    ensures ReplaceAll(a + b, c, rep) == ReplaceAll(a, c, rep) + ReplaceAll(b, c, rep)
  {
    if a == [] {
      assert a + b == b;
    } else {
      assert (a + b)[1..] == a[1..] + b;
      ReplaceAllAppend(a[1..], b, c, rep);
    }
  }

  /** `escapeJs(str)`, replace by replace, in the source's order. */
  function EscapeJs(s: string): (r: string)
    ensures '\n' !in r && '\r' !in r
  {
    var s1 := ReplaceAll(s, '\\', "\\\\");
    var s2 := ReplaceAll(s1, '\'', "\\'");
    var s3 := ReplaceAll(s2, '"', "\\\"");
    var s4 := ReplaceAll(s3, '\n', "\\n");
    ReplaceAllAdds(s4, '\r', "\\r", '\n');
    ReplaceAll(s4, '\r', "\\r")
  }

  /** The escape of one character: the mapping `escapeJs` is meant to apply. */
  function EscapeChar(c: char): (r: string)
    ensures |r| == 1 <==> c != '\\' && c != '\'' && c != '"' && c != '\n' && c != '\r'
    ensures |r| == 1 ==> r == [c]
    ensures |r| != 1 ==> |r| == 2 && r[0] == '\\'
  {
    match c
    case '\\' => "\\\\"
    case '\'' => "\\'"
    case '"' => "\\\""
    case '\n' => "\\n"
    case '\r' => "\\r"
    case _ => [c]
  }

  /** The per-character reference definition. */
  function EscapeEach(s: string): (r: string)
    ensures |r| >= |s|
  {
    if s == [] then [] else EscapeChar(s[0]) + EscapeEach(s[1..])
  }

  lemma {:induction false} EscapeEachAppend(a: string, b: string)
    ensures EscapeEach(a + b) == EscapeEach(a) + EscapeEach(b)
  {
    if a == [] {
      assert a + b == b;
    } else {
      assert (a + b)[1..] == a[1..] + b;
      EscapeEachAppend(a[1..], b);
    }
  }

  /** `escapeJs` distributes over concatenation. */
  lemma EscapeJsAppend(a: string, b: string)
    ensures EscapeJs(a + b) == EscapeJs(a) + EscapeJs(b)
  {
    var a1, b1 := ReplaceAll(a, '\\', "\\\\"), ReplaceAll(b, '\\', "\\\\");
    ReplaceAllAppend(a, b, '\\', "\\\\");
    var a2, b2 := ReplaceAll(a1, '\'', "\\'"), ReplaceAll(b1, '\'', "\\'");
    ReplaceAllAppend(a1, b1, '\'', "\\'");
    var a3, b3 := ReplaceAll(a2, '"', "\\\""), ReplaceAll(b2, '"', "\\\"");
    ReplaceAllAppend(a2, b2, '"', "\\\"");
    var a4, b4 := ReplaceAll(a3, '\n', "\\n"), ReplaceAll(b3, '\n', "\\n");
    ReplaceAllAppend(a3, b3, '\n', "\\n");
    ReplaceAllAppend(a4, b4, '\r', "\\r");
  }

  /**
   * Because the backslash is replaced first, no backslash a later replace
   * inserts is escaped again: on a single character the chain is exactly
   * `EscapeChar`.
   */
  lemma EscapeJsOfChar(c: char)
    ensures EscapeJs([c]) == EscapeChar(c)
  {
    ReplaceAllOfChar(c, '\\', "\\\\");
    ReplaceAllOfChar(c, '\'', "\\'");
    ReplaceAllOfChar(c, '"', "\\\"");
    ReplaceAllOfChar(c, '\n', "\\n");
    ReplaceAllOfChar(c, '\r', "\\r");
  }

  lemma ReplaceAllOfChar(x: char, c: char, rep: string)
    ensures ReplaceAll([x], c, rep) == if x == c then rep else [x]
  {
    assert [x][1..] == [];
  }

  /** `escapeJs` is the per-character escape, whatever the input. */
  lemma {:induction false} EscapeJsIsPerChar(s: string)
    ensures EscapeJs(s) == EscapeEach(s)
  {
    if s != [] {
      assert s == [s[0]] + s[1..];
      EscapeJsAppend([s[0]], s[1..]);
      EscapeJsOfChar(s[0]);
      EscapeJsIsPerChar(s[1..]);
    }
  }

  // ----- reading the literal back -----

  function HexValue(c: char): Option<nat> {
    if '0' <= c <= '9' then Some(c as nat - '0' as nat)
    else if 'a' <= c <= 'f' then Some(c as nat - 'a' as nat + 10)
    else if 'A' <= c <= 'F' then Some(c as nat - 'A' as nat + 10)
    else None
  }

  /**
   * The value of the body of a single-quoted JavaScript string literal:
   * `\\`, `\'`, `\"`, `\n`, `\r` and `\xHH` escapes; an unescaped quote or
   * line break ends the literal early (`None`), and so does a backslash
   * escape outside this list, which the model does not decode.
   */
  function Unquote(t: string): (r: Option<string>)
    decreases |t|
  {
    if t == [] then Some([])
    else if t[0] == '\\' then
      if |t| < 2 then None
      else if t[1] == 'x' then
        if |t| < 4 || HexValue(t[2]).None? || HexValue(t[3]).None? then None
        else
          var code := HexValue(t[2]).value * 16 + HexValue(t[3]).value;
          Prepend(code as char, Unquote(t[4..]))
      else
        var decoded :=
          match t[1]
          case '\\' => Some('\\')
          case '\'' => Some('\'')
          case '"' => Some('"')
          case 'n' => Some('\n')
          case 'r' => Some('\r')
          case _ => None;
        if decoded.None? then None else Prepend(decoded.value, Unquote(t[2..]))
    else if t[0] == '\'' || t[0] == '\n' || t[0] == '\r' then None
    else Prepend(t[0], Unquote(t[1..]))
  }

  function Prepend(c: char, r: Option<string>): Option<string> {
    if r.None? then None else Some([c] + r.value)
  }

  /**
   * The escaped title, put between single quotes, is read back by
   * JavaScript as the title itself: escaping never ends the literal early
   * and loses nothing.
   */
  lemma {:induction false} EscapeJsRoundTrip(s: string)
    ensures Unquote(EscapeJs(s)) == Some(s)
  {
    EscapeJsIsPerChar(s);
    EscapeEachRoundTrip(s);
  }

  lemma {:induction false} EscapeEachRoundTrip(s: string)
    ensures Unquote(EscapeEach(s)) == Some(s)
  {
    if s != [] {
      EscapeEachRoundTrip(s[1..]);
      UnquoteEscapedChar(s[0], EscapeEach(s[1..]));
      assert [s[0]] + s[1..] == s;
    }
  }

  /** Reading one escaped character gives the character, then whatever follows is read on. */
  lemma UnquoteEscapedChar(c: char, rest: string)
    ensures Unquote(EscapeChar(c) + rest) == Prepend(c, Unquote(rest))
  {
    var t := EscapeChar(c) + rest;
    if |EscapeChar(c)| == 2 {
      assert t[2..] == rest;
    } else {
      assert t[1..] == rest;
    }
  }

  /** Different titles give different escaped texts. */
  lemma EscapeJsInjective(a: string, b: string)
    requires EscapeJs(a) == EscapeJs(b)
    ensures a == b
  {
    EscapeJsRoundTrip(a);
    EscapeJsRoundTrip(b);
  }

  // ----- the onclick attribute -----

  /**
   * The handler text `head + "'" + arg + "')"`, as in
   * `openPhotos(${loc.id}, '${escapeJs(loc.title)}')`.
   */
  function Handler(head: string, arg: string): string {
    head + "'" + arg + "')"
  }

  /**
   * The value an HTML parser reads for a double-quoted attribute whose
   * markup starts with `t`: everything up to the first `"`.
   */
  function AttrValue(t: string): (r: string)
    ensures |r| <= |t| && r == t[..|r|]
    ensures '"' !in t ==> r == t
  {
    if t == [] || t[0] == '"' then [] else [t[0]] + AttrValue(t[1..])
  }

  lemma {:induction false} AttrValueCut(t: string)
    requires '"' in t
    ensures |AttrValue(t)| < |t|
  {
    if t[0] != '"' {
      assert '"' in t[1..] by {
        var k :| 0 <= k < |t| && t[k] == '"';
        assert t[1..][k - 1] == '"';
      }
      AttrValueCut(t[1..]);
    }
  }

  /**
   * A title containing `"` breaks the button: `escapeJs` turns it into
   * `\"`, and the `"` still ends the HTML attribute, so the handler the
   * browser sees is cut short (for the title `a"b` it is
   * `openPhotos(1, 'a\`, an unterminated literal).
   */
  lemma QuoteCutsHandler(head: string, s: string)
    requires '"' in s
    ensures AttrValue(Handler(head, EscapeJs(s))) != Handler(head, EscapeJs(s))
  {
    var k :| 0 <= k < |s| && s[k] == '"';
    QuoteSurvivesEscape(s, k);
    QuoteInArgumentCuts(head, EscapeJs(s));
  }

  /** A `"` inside the quoted argument ends the attribute before the handler does. */
  lemma QuoteInArgumentCuts(head: string, e: string)
    requires '"' in e
    ensures AttrValue(Handler(head, e)) != Handler(head, e)
  {
    var i :| 0 <= i < |e| && e[i] == '"';
    var h := Handler(head, e);
    assert h[|head| + 1 + i] == '"';
    AttrValueCut(h);
  }

  /** `escapeJs` keeps a `"` of the title, behind a backslash. */
  lemma QuoteSurvivesEscape(s: string, k: int)
    requires 0 <= k < |s| && s[k] == '"'
    ensures '"' in EscapeJs(s)
  {
    var u, v := s[..k], s[k + 1..];
    assert s == u + [s[k]] + v;
    EscapeJsAppend(u + [s[k]], v);
    EscapeJsAppend(u, [s[k]]);
    EscapeJsOfChar(s[k]);
    assert EscapeJs(s)[|EscapeJs(u)| + 1] == '"';
  }

  lemma TitleWithQuote(s: string, head: string)
    requires s == "a\"b" && head == "openPhotos(1, "
    ensures EscapeJs(s) == "a\\\"b"
    ensures AttrValue(Handler(head, EscapeJs(s))) == "openPhotos(1, 'a\\"
  {
    EscapedQuote(s);
    var u := "openPhotos(1, 'a\\";
    assert Handler(head, EscapeJs(s)) == u + "\"" + "b')";
    AttrValueUpTo(u, "b')");
  }

  lemma EscapedQuote(s: string)
    requires s == "a\"b"
    ensures EscapeJs(s) == "a\\\"b"
  {
    EscapeJsThree(s[0], s[1], s[2]);
    assert s == [s[0], s[1], s[2]];
  }

  lemma EscapeJsThree(x: char, y: char, z: char)
    ensures EscapeJs([x, y, z]) == EscapeChar(x) + EscapeChar(y) + EscapeChar(z)
  {
    assert [x, y, z] == [x] + [y] + [z];
    EscapeJsAppend([x] + [y], [z]);
    EscapeJsAppend([x], [y]);
    EscapeJsOfChar(x);
    EscapeJsOfChar(y);
    EscapeJsOfChar(z);
  }

  lemma {:induction false} AttrValueUpTo(u: string, v: string)
    requires '"' !in u
    ensures AttrValue(u + "\"" + v) == u
  {
    if u != [] {
      assert (u + "\"" + v)[1..] == u[1..] + "\"" + v;
      AttrValueUpTo(u[1..], v);
    }
  }

  /**
   * The escape the attribute needs: as `escapeJs`, but `"` and `&` become
   * the hexadecimal escapes `\x22` and `\x26`, so the text holds no
   * character the HTML parser acts on inside a double-quoted attribute.
   */
  function EscapeAttrChar(c: char): (r: string)
    ensures '"' !in r && '&' !in r
  {
    match c
    case '"' => "\\x22"
    case '&' => "\\x26"
    case _ => EscapeChar(c)
  }

  function EscapeJsAttr(s: string): (r: string)
    ensures '"' !in r && '&' !in r
  {
    if s == [] then [] else EscapeAttrChar(s[0]) + EscapeJsAttr(s[1..])
  }

  lemma {:induction false} EscapeJsAttrRoundTrip(s: string)
    ensures Unquote(EscapeJsAttr(s)) == Some(s)
  {
    if s != [] {
      EscapeJsAttrRoundTrip(s[1..]);
      UnquoteAttrChar(s[0], EscapeJsAttr(s[1..]));
      assert [s[0]] + s[1..] == s;
    }
  }

  /** The same for the attribute escape: `\x22` and `\x26` read back as `"` and `&`. */
  lemma UnquoteAttrChar(c: char, rest: string)
    ensures Unquote(EscapeAttrChar(c) + rest) == Prepend(c, Unquote(rest))
  {
    if c == '"' || c == '&' {
      var t := EscapeAttrChar(c) + rest;
      assert t[4..] == rest;
      assert HexValue(t[2]) == Some(2);
      assert HexValue(t[3]) == Some(if c == '"' then 2 else 6);
    } else {
      UnquoteEscapedChar(c, rest);
    }
  }

  /**
   * With the attribute escape, the handler reaches the browser whole
   * (given a head without `"`), and its quoted argument reads back as the
   * title.
   */
  lemma HandlerIntact(head: string, s: string)
    requires '"' !in head
    ensures AttrValue(Handler(head, EscapeJsAttr(s))) == Handler(head, EscapeJsAttr(s))
    ensures Unquote(EscapeJsAttr(s)) == Some(s)
  {
    var h := Handler(head, EscapeJsAttr(s));
    assert '"' !in h by {
      assert forall i :: 0 <= i < |h| ==> h[i] != '"';
    }
    EscapeJsAttrRoundTrip(s);
  }
}
