/**
 * `escape_html`, defined identically in handlers/tasks.py and
 * handlers/birthdays.py: user text is put into messages sent in HTML parse
 * mode, so `&`, `<` and `>` become entities and the text can never open or
 * close a tag.
 */
module Html {
  import opened Text

  /** The three chained `str.replace` calls, ampersand first. */
  function EscapeHtml(s: string): (r: string)
    ensures '&' !in s && '<' !in s && '>' !in s ==> r == s
  {
    Replace(Replace(Replace(s, '&', "&amp;"), '<', "&lt;"), '>', "&gt;")
  }

  /** The entity that stands for one character, or the character itself. */
  function EscapeChar(c: char): (r: string)
    ensures '<' !in r && '>' !in r
  {
    if c == '&' then "&amp;"
    else if c == '<' then "&lt;"
    else if c == '>' then "&gt;"
    else [c]
  }

  /** Escaping character by character, left to right. */
  function EscapeEach(s: string): string {
    if |s| == 0 then "" else EscapeChar(s[0]) + EscapeEach(s[1..])
  }

  lemma EscapeHtmlOfChar(c: char)
    ensures EscapeHtml([c]) == EscapeChar(c)
  {
    var a1 := Replace([c], '&', "&amp;");
    assert a1 == (if c == '&' then "&amp;" else [c]) + Replace([], '&', "&amp;");
    var a2 := Replace(a1, '<', "&lt;");
    if c == '<' {
      assert a2 == "&lt;" + Replace([], '<', "&lt;");
    }
    if c == '>' {
      assert a2 == [c];
      assert Replace(a2, '>', "&gt;") == "&gt;" + Replace([], '>', "&gt;");
    }
  }

  lemma EscapeHtmlAppend(a: string, b: string)
    ensures EscapeHtml(a + b) == EscapeHtml(a) + EscapeHtml(b)
  {
    ReplaceAppend(a, b, '&', "&amp;");
    var a1, b1 := Replace(a, '&', "&amp;"), Replace(b, '&', "&amp;");
    ReplaceAppend(a1, b1, '<', "&lt;");
    ReplaceAppend(Replace(a1, '<', "&lt;"), Replace(b1, '<', "&lt;"), '>', "&gt;");
  }

  /**
   * Because `&` is replaced first, the later passes never touch the entities
   * earlier passes wrote: the chain is one left-to-right pass.
   */
  lemma {:induction false} EscapeHtmlIsOnePass(s: string)
    ensures EscapeHtml(s) == EscapeEach(s)
  {
    if |s| > 0 {
      assert s == [s[0]] + s[1..];
      EscapeHtmlIsOnePass(s[1..]);
      EscapeHtmlAppend([s[0]], s[1..]);
      EscapeHtmlOfChar(s[0]);
    }
  }

  lemma {:induction false} EscapeEachNoTags(s: string)
    ensures '<' !in EscapeEach(s) && '>' !in EscapeEach(s)
  {
    if |s| > 0 {
      EscapeEachNoTags(s[1..]);
    }
  }

  /** The escaped text holds no angle bracket, so it cannot form a tag. */
  lemma EscapeHtmlNoTags(s: string)
    ensures '<' !in EscapeHtml(s) && '>' !in EscapeHtml(s)
  {
    EscapeHtmlIsOnePass(s);
    EscapeEachNoTags(s);
  }

  /** Reading the entities back: the inverse a browser applies when it renders the text. */
  function Unescape(s: string): string
    decreases |s|
  {
    if StartsWith(s, "&amp;") then "&" + Unescape(s[5..])
    else if StartsWith(s, "&lt;") then "<" + Unescape(s[4..])
    else if StartsWith(s, "&gt;") then ">" + Unescape(s[4..])
    else if |s| == 0 then ""
    else [s[0]] + Unescape(s[1..])
  }

  lemma UnescapeStep(c: char, rest: string)
    ensures Unescape(EscapeChar(c) + rest) == [c] + Unescape(rest)
  {
    var e := EscapeChar(c) + rest;
    if c == '&' {
      assert e[..5] == "&amp;" && e[5..] == rest;
    } else if c == '<' {
      assert e[..4] == "&lt;" && e[4..] == rest;
      assert !StartsWith(e, "&amp;") by { assert e[1] == 'l'; }
    } else if c == '>' {
      assert e[..4] == "&gt;" && e[4..] == rest;
      assert !StartsWith(e, "&amp;") && !StartsWith(e, "&lt;") by { assert e[1] == 'g'; }
    } else {
      assert e[0] == c && e[1..] == rest;
      assert !StartsWith(e, "&amp;") && !StartsWith(e, "&lt;") && !StartsWith(e, "&gt;") by {
        assert e[0] != '&';
      }
    }
  }

  lemma {:induction false} UnescapeEscapeEach(s: string)
    ensures Unescape(EscapeEach(s)) == s
  {
    if |s| > 0 {
      UnescapeEscapeEach(s[1..]);
      UnescapeStep(s[0], EscapeEach(s[1..]));
      assert [s[0]] + s[1..] == s;
    }
  }

  /** Escaping loses nothing: the rendered text is exactly what the user typed. */
  lemma UnescapeEscape(s: string)
    ensures Unescape(EscapeHtml(s)) == s
  {
    EscapeHtmlIsOnePass(s);
    UnescapeEscapeEach(s);
  }
}
