/** `escapeHtml` of the image-description card: five global `replace`
    calls that turn the HTML-special characters of a plain text into
    character entities, ampersand first. */
module HtmlEscape {

  /** `s.replace(/c/g, r)`: every occurrence of the character `c` replaced
      by `r`, left to right. */
  function ReplaceChar(s: string, c: char, r: string): (t: string)
    ensures c !in s ==> t == s
    decreases |s|
  {
    if s == [] then []
    else (if s[0] == c then r else [s[0]]) + ReplaceChar(s[1..], c, r)
  }

  lemma {:induction false} ReplaceCharAppend(a: string, b: string, c: char, r: string)
    ensures ReplaceChar(a + b, c, r) == ReplaceChar(a, c, r) + ReplaceChar(b, c, r)
    decreases |a|
  {
    if a == [] {
      assert a + b == b;
    } else {
      assert (a + b)[0] == a[0] && (a + b)[1..] == a[1..] + b;
      ReplaceCharAppend(a[1..], b, c, r);
    }
  }

  /** The chain of the source, in its order. */
  function EscapeHtml(s: string): string
  {
    var amp := ReplaceChar(s, '&', "&amp;");
    var lt := ReplaceChar(amp, '<', "&lt;");
    var gt := ReplaceChar(lt, '>', "&gt;");
    var quot := ReplaceChar(gt, '"', "&quot;");
    ReplaceChar(quot, '\'', "&#039;")
  }

  /** The entity of one character, or the character itself. */
  function EscapeChar(c: char): string
  {
    match c
    case '&' => "&amp;"
    case '<' => "&lt;"
    case '>' => "&gt;"
    case '"' => "&quot;"
    case '\'' => "&#039;"
    case _ => [c]
  }

  /** The reference definition: every character escaped on its own. */
  function EscapeEach(s: string): string
    decreases |s|
  {
    if s == [] then [] else EscapeChar(s[0]) + EscapeEach(s[1..])
  }

  /** The five passes split over a concatenation. */
  lemma EscapeHtmlAppend(a: string, b: string)
    ensures EscapeHtml(a + b) == EscapeHtml(a) + EscapeHtml(b)
  {
    var a1, b1 := ReplaceChar(a, '&', "&amp;"), ReplaceChar(b, '&', "&amp;");
    ReplaceCharAppend(a, b, '&', "&amp;");
    var a2, b2 := ReplaceChar(a1, '<', "&lt;"), ReplaceChar(b1, '<', "&lt;");
    ReplaceCharAppend(a1, b1, '<', "&lt;");
    var a3, b3 := ReplaceChar(a2, '>', "&gt;"), ReplaceChar(b2, '>', "&gt;");
    ReplaceCharAppend(a2, b2, '>', "&gt;");
    var a4, b4 := ReplaceChar(a3, '"', "&quot;"), ReplaceChar(b3, '"', "&quot;");
    ReplaceCharAppend(a3, b3, '"', "&quot;");
    ReplaceCharAppend(a4, b4, '\'', "&#039;");
  }

  lemma ReplaceSingle(x: char, c: char, r: string)
    ensures ReplaceChar([x], c, r) == if x == c then r else [x]
  {
    assert [x][1..] == [];
  }

  /** On one character the chain yields its entity: no pass touches what an
      earlier pass wrote, because the ampersand goes first. */
  lemma EscapeHtmlChar(c: char)
    ensures EscapeHtml([c]) == EscapeChar(c)
  {
    ReplaceSingle(c, '&', "&amp;");
    if c == '&' {
      assert EscapeHtml([c]) == "&amp;" by {
        assert '<' !in "&amp;" && '>' !in "&amp;" && '"' !in "&amp;" && '\'' !in "&amp;";
      }
      return;
    }
    ReplaceSingle(c, '<', "&lt;");
    if c == '<' {
      assert EscapeHtml([c]) == "&lt;" by {
        assert '>' !in "&lt;" && '"' !in "&lt;" && '\'' !in "&lt;";
      }
      return;
    }
    ReplaceSingle(c, '>', "&gt;");
    if c == '>' {
      assert EscapeHtml([c]) == "&gt;" by {
        assert '"' !in "&gt;" && '\'' !in "&gt;";
      }
      return;
    }
    ReplaceSingle(c, '"', "&quot;");
    if c == '"' {
      assert EscapeHtml([c]) == "&quot;" by {
        assert '\'' !in "&quot;";
      }
      return;
    }
    ReplaceSingle(c, '\'', "&#039;");
  }

  /** The chain of replacements escapes each character on its own. */
  lemma {:induction false} EscapeHtmlIsEscapeEach(s: string)
    ensures EscapeHtml(s) == EscapeEach(s)
    decreases |s|
  {
    if s != [] {
      assert s == [s[0]] + s[1..];
      EscapeHtmlAppend([s[0]], s[1..]);
      EscapeHtmlChar(s[0]);
      EscapeHtmlIsEscapeEach(s[1..]);
    }
  }

  // ---------------------------------------------------------------------
  // What the escaped text contains

  predicate Special(c: char)
  {
    c == '<' || c == '>' || c == '"' || c == '\''
  }

  lemma {:induction false} EscapeEachPlain(s: string)
    ensures forall i | 0 <= i < |EscapeEach(s)| :: !Special(EscapeEach(s)[i])
    ensures |EscapeEach(s)| >= |s|
    decreases |s|
  {
    if s != [] {
      EscapeEachPlain(s[1..]);
      var h, t := EscapeChar(s[0]), EscapeEach(s[1..]);
      assert forall i | 0 <= i < |h| :: !Special(h[i]);
      assert forall i | 0 <= i < |h + t| :: (h + t)[i] == if i < |h| then h[i] else t[i - |h|];
    }
  }

  /** The escaped text holds no angle bracket and no quote, and it is never
      shorter than the input. */
  lemma EscapeHtmlPlain(s: string)
    ensures forall i | 0 <= i < |EscapeHtml(s)| :: !Special(EscapeHtml(s)[i])
    ensures |EscapeHtml(s)| >= |s|
  {
    EscapeHtmlIsEscapeEach(s);
    EscapeEachPlain(s);
  }

  // ---------------------------------------------------------------------
  // Decoding

  /** Reading the five entities back, and any other character as itself. */
  function Unescape(s: string): string
    decreases |s|
  {
    if s == [] then []
    else if "&amp;" <= s then "&" + Unescape(s[5..])
    else if "&lt;" <= s then "<" + Unescape(s[4..])
    else if "&gt;" <= s then ">" + Unescape(s[4..])
    else if "&quot;" <= s then "\"" + Unescape(s[6..])
    else if "&#039;" <= s then "'" + Unescape(s[6..])
    else [s[0]] + Unescape(s[1..])
  }

  lemma UnescapeStep(c: char, rest: string)
    ensures Unescape(EscapeChar(c) + rest) == [c] + Unescape(rest)
  {
    if c == '&' || c == '<' || c == '>' {
      UnescapeAmpAngle(c, rest);
    } else if c == '"' || c == '\'' {
      UnescapeQuote(c, rest);
    } else {
      var e := EscapeChar(c) + rest;
      assert e[0] == c && e[1..] == rest;
    }
  }

  lemma UnescapeAmpAngle(c: char, rest: string)
    requires c == '&' || c == '<' || c == '>'
    ensures Unescape(EscapeChar(c) + rest) == [c] + Unescape(rest)
  {
    var e := EscapeChar(c) + rest;
    if c == '&' {
      assert "&amp;" <= e && e[5..] == rest;
    } else if c == '<' {
      assert e[1] == 'l';
      assert "&lt;" <= e && e[4..] == rest;
    } else {
      assert e[1] == 'g';
      assert "&gt;" <= e && e[4..] == rest;
    }
  }

  lemma UnescapeQuote(c: char, rest: string)
    requires c == '"' || c == '\''
    ensures Unescape(EscapeChar(c) + rest) == [c] + Unescape(rest)
  {
    var e := EscapeChar(c) + rest;
    if c == '"' {
      assert e[1] == 'q';
      assert "&quot;" <= e && e[6..] == rest;
    } else {
      assert e[1] == '#';
      assert "&#039;" <= e && e[6..] == rest;
    }
  }

  lemma {:induction false} UnescapeEscapeEach(s: string)
    ensures Unescape(EscapeEach(s)) == s
    decreases |s|
  {
    if s != [] {
      UnescapeStep(s[0], EscapeEach(s[1..]));
      UnescapeEscapeEach(s[1..]);
    }
  }

  /** Escaping loses nothing: decoding the entities gives the text back. */
  lemma EscapeHtmlRoundTrip(s: string)
    ensures Unescape(EscapeHtml(s)) == s
  {
    EscapeHtmlIsEscapeEach(s);
    UnescapeEscapeEach(s);
  }
}
