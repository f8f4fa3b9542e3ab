/**
 The web server's escape(): five replacements, one after the other over the whole text.
 */
module Escape {
  import opened MbConfigLaws

  /** s.replace(c, text) for a single character */
  function Replace(s: string, c: char, text: string): string {
    if |s| == 0 then "" else (if s[0] == c then text else [s[0]]) + Replace(s[1..], c, text)
  }

  function Escaped(s: string): string {
    var t := Replace(Replace(Replace(s, '&', "&amp;"), '<', "&lt;"), '>', "&gt;");
    Replace(Replace(t, '"', "&quot;"), '\'', "&#x27;")
  }

  /** What each character stands for in the result */
  function Entity(c: char): string {
    match c
    case '&' => "&amp;"
    case '<' => "&lt;"
    case '>' => "&gt;"
    case '"' => "&quot;"
    case '\'' => "&#x27;"
    case _ => [c]
  }

  function SinglePass(s: string): string {
    if |s| == 0 then "" else Entity(s[0]) + SinglePass(s[1..])
  }

  lemma {:induction false} ReplaceJoined(a: string, b: string, c: char, text: string)
    ensures Replace(a + b, c, text) == Replace(a, c, text) + Replace(b, c, text)
    decreases |a|
  {
    if |a| == 0 {
      assert a + b == b;
    } else {
      assert (a + b)[0] == a[0] && (a + b)[1..] == a[1..] + b;
      ReplaceJoined(a[1..], b, c, text);
      var first := if a[0] == c then text else [a[0]];
      var rest, more := Replace(a[1..], c, text), Replace(b, c, text);
      assert first + (rest + more) == first + rest + more;
    }
  }

  lemma {:induction false} ReplaceAbsent(s: string, c: char, text: string)
    requires c !in s
    ensures Replace(s, c, text) == s
    decreases |s|
  {
    if |s| > 0 {
      ReplaceAbsent(s[1..], c, text);
    }
  }

  lemma EscapedJoined(a: string, b: string)
    ensures Escaped(a + b) == Escaped(a) + Escaped(b)
  {
    hide Replace;
    var a1, b1 := Replace(a, '&', "&amp;"), Replace(b, '&', "&amp;");
    var a2, b2 := Replace(a1, '<', "&lt;"), Replace(b1, '<', "&lt;");
    var a3, b3 := Replace(a2, '>', "&gt;"), Replace(b2, '>', "&gt;");
    var a4, b4 := Replace(a3, '"', "&quot;"), Replace(b3, '"', "&quot;");
    ReplaceJoined(a, b, '&', "&amp;");
    ReplaceJoined(a1, b1, '<', "&lt;");
    ReplaceJoined(a2, b2, '>', "&gt;");
    ReplaceJoined(a3, b3, '"', "&quot;");
    ReplaceJoined(a4, b4, '\'', "&#x27;");
  }

  /** A text of one character, and what a replacement makes of it */
  lemma ReplaceOne(c: char, d: char, text: string)
    ensures Replace([c], d, text) == if c == d then text else [c]
  {
    assert [c][1..] == "";
    assert text + "" == text;
  }

  lemma EscapedOne(c: char)
    ensures Escaped([c]) == Entity(c)
  {
    hide Replace;
    ReplaceOne(c, '&', "&amp;");
    ReplaceOne(c, '<', "&lt;");
    ReplaceOne(c, '>', "&gt;");
    ReplaceOne(c, '"', "&quot;");
    ReplaceOne(c, '\'', "&#x27;");
    forall d: char, text: string | d in ['<', '>', '"', '\'']
      ensures Replace("&amp;", d, text) == "&amp;" && Replace("&lt;", d, text) == "&lt;"
      ensures Replace("&gt;", d, text) == "&gt;" && Replace("&quot;", d, text) == "&quot;"
    {
      ReplaceAbsent("&amp;", d, text);
      ReplaceAbsent("&lt;", d, text);
      ReplaceAbsent("&gt;", d, text);
      ReplaceAbsent("&quot;", d, text);
    }
  }

  /** The five characters that mean something in HTML, and all others */
  lemma EscapedCharacters(c: char)
    ensures Escaped("&") == "&amp;" && Escaped("<") == "&lt;" && Escaped(">") == "&gt;"
    ensures Escaped("\"") == "&quot;" && Escaped("'") == "&#x27;"
    ensures c !in ['&', '<', '>', '"', '\''] ==> Escaped([c]) == [c]
  {
    hide Escaped;
    EscapedOne('&');
    EscapedOne('<');
    EscapedOne('>');
    EscapedOne('"');
    EscapedOne('\'');
    EscapedOne(c);
  }

  /** The five replacements do not disturb each other: the result is that of one pass. */
  lemma {:induction false} EscapedIsSinglePass(s: string)
    ensures Escaped(s) == SinglePass(s)
    decreases |s|
  {
    hide Escaped;
    if |s| == 0 {
      NothingEscaped();
    } else {
      assert s == [s[0]] + s[1..];
      EscapedJoined([s[0]], s[1..]);
      EscapedOne(s[0]);
      EscapedIsSinglePass(s[1..]);
    }
  }

  lemma NothingEscaped()
    ensures Escaped("") == ""
  {
  }

  /** An escaped text has no quotes and no angle brackets, and no newline that was not there before. */
  lemma {:induction false} EscapedHasNone(s: string, c: char)
    requires c in ['<', '>', '"', '\''] || (c == '\n' && c !in s)
    ensures c !in Escaped(s)
    decreases |s|
  {
    hide Escaped;
    EscapedIsSinglePass(s);
    if |s| > 0 {
      EscapedIsSinglePass(s[1..]);
      EscapedHasNone(s[1..], c);
      EntityHasNone(s[0], c);
    }
  }

  lemma EntityHasNone(s: char, c: char)
    requires c in ['<', '>', '"', '\''] || (c == '\n' && c != s)
    ensures c !in Entity(s)
  {
  }

  /** So an escaped text of one line can be printed between quotes. */
  lemma EscapedIsClean(s: string)
    requires '\n' !in s
    ensures Clean(Escaped(s))
  {
    hide Escaped;
    EscapedHasNone(s, '"');
    EscapedHasNone(s, '\n');
  }

  /** Reading the entities back, one after the other */
  function Unescaped(s: string): string
    decreases |s|
  {
    if |s| == 0 then ""
    else if "&amp;" <= s then "&" + Unescaped(s[5..])
    else if "&lt;" <= s then "<" + Unescaped(s[4..])
    else if "&gt;" <= s then ">" + Unescaped(s[4..])
    else if "&quot;" <= s then "\"" + Unescaped(s[6..])
    else if "&#x27;" <= s then "'" + Unescaped(s[6..])
    else [s[0]] + Unescaped(s[1..])
  }

  lemma BracketRead(c: char, more: string)
    requires c == '&' || c == '<' || c == '>'
    ensures Unescaped(Entity(c) + more) == [c] + Unescaped(more)
  {
    var s := Entity(c) + more;
    match c {
      case '&' => assert s[5..] == more;
      case '<' => assert s[4..] == more && s[1] == 'l';
      case _ => assert s[4..] == more && s[1] == 'g';
    }
  }

  lemma QuoteRead(c: char, more: string)
    requires c == '"' || c == '\''
    ensures Unescaped(Entity(c) + more) == [c] + Unescaped(more)
  {
    var s := Entity(c) + more;
    match c {
      case '"' => assert s[6..] == more && s[1] == 'q';
      case _ => assert s[6..] == more && s[1] == '#';
    }
  }

  lemma OtherRead(c: char, more: string)
    requires Entity(c) == [c] && c != '&'
    ensures Unescaped([c] + more) == [c] + Unescaped(more)
  {
    var s := [c] + more;
    assert s[1..] == more && s[0] == c;
  }

  lemma EntityRead(c: char, more: string)
    ensures Unescaped(Entity(c) + more) == [c] + Unescaped(more)
  {
    hide Unescaped;
    if c == '&' || c == '<' || c == '>' {
      BracketRead(c, more);
    } else if c == '"' || c == '\'' {
      QuoteRead(c, more);
    } else {
      OtherRead(c, more);
    }
  }

  /** Nothing is lost by escaping. */
  lemma {:induction false} EscapedComesBack(s: string)
    ensures Unescaped(Escaped(s)) == s
    decreases |s|
  {
    hide Escaped, Unescaped, Entity;
    EscapedIsSinglePass(s);
    if |s| == 0 {
      assert Unescaped("") == "" by { NothingUnescaped(); }
    } else {
      EscapedIsSinglePass(s[1..]);
      EscapedComesBack(s[1..]);
      EntityRead(s[0], SinglePass(s[1..]));
    }
  }

  lemma NothingUnescaped()
    ensures Unescaped("") == ""
  {
  }
}
