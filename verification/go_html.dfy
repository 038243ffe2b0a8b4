/** Go's `html.EscapeString`, which the blame handler applies to mid-stream
    error messages, and a decoder of exactly the five entities it produces. */
module GoHtml {
  import Text

  /** The replacement Go's escaper applies to one character. */
  function EscapeChar(c: char): string {
    match c
    case '<' => "&lt;"
    case '>' => "&gt;"
    case '&' => "&amp;"
    case '\'' => "&#39;"
    case '"' => "&#34;"
    case _ => [c]
  }

  /** Characters the escaped form never contains. */
  predicate Special(c: char) {
    c == '<' || c == '>' || c == '\'' || c == '"'
  }

  /** Go `html.EscapeString`: `<`, `>`, `&`, `'` and `"` become entities,
      every other character is copied. */
  function EscapeString(s: string): (r: string)
    ensures |r| >= |s|
    ensures forall i :: 0 <= i < |r| ==> !Special(r[i])
    ensures (forall i :: 0 <= i < |s| ==> !Special(s[i]) && s[i] != '&') ==> r == s
    decreases |s|
  {
    if |s| == 0 then "" else EscapeChar(s[0]) + EscapeString(s[1..])
  }

  /** Decodes the five entities `EscapeString` emits; any other text,
      including other entities, is copied unchanged. */
  function UnescapeEntities(s: string): string
    decreases |s|
  {
    if |s| == 0 then ""
    else if Text.HasPrefix(s, "&lt;") then "<" + UnescapeEntities(s[4..])
    else if Text.HasPrefix(s, "&gt;") then ">" + UnescapeEntities(s[4..])
    else if Text.HasPrefix(s, "&amp;") then "&" + UnescapeEntities(s[5..])
    else if Text.HasPrefix(s, "&#39;") then "'" + UnescapeEntities(s[5..])
    else if Text.HasPrefix(s, "&#34;") then "\"" + UnescapeEntities(s[5..])
    else [s[0]] + UnescapeEntities(s[1..])
  }

  /** Decoding the escape of one character followed by any text yields the
      character followed by the decoding of that text. */
  lemma UnescapeEscapeChar(c: char, rest: string)
    ensures UnescapeEntities(EscapeChar(c) + rest) == [c] + UnescapeEntities(rest)
  {
    if c == '<' {
      UnescapeLt(rest);
    } else if c == '>' {
      UnescapeGt(rest);
    } else if c == '&' {
      UnescapeAmp(rest);
    } else if c == '\'' {
      UnescapeApos(rest);
    } else if c == '"' {
      UnescapeQuot(rest);
    } else {
      UnescapePlain(c, rest);
    }
  }

  lemma UnescapeLt(rest: string)
    ensures UnescapeEntities("&lt;" + rest) == "<" + UnescapeEntities(rest)
  {
    var t := "&lt;" + rest;
    assert t[..4] == "&lt;" && t[4..] == rest;
  }

  lemma UnescapeGt(rest: string)
    ensures UnescapeEntities("&gt;" + rest) == ">" + UnescapeEntities(rest)
  {
    var t := "&gt;" + rest;
    assert t[1] == 'g';
    assert t[..4] == "&gt;" && t[4..] == rest;
  }

  lemma UnescapeAmp(rest: string)
    ensures UnescapeEntities("&amp;" + rest) == "&" + UnescapeEntities(rest)
  {
    var t := "&amp;" + rest;
    assert t[1] == 'a';
    assert t[..5] == "&amp;" && t[5..] == rest;
  }

  lemma UnescapeApos(rest: string)
    ensures UnescapeEntities("&#39;" + rest) == "'" + UnescapeEntities(rest)
  {
    var t := "&#39;" + rest;
    assert t[1] == '#' && t[2] == '3';
    assert t[..5] == "&#39;" && t[5..] == rest;
  }

  lemma UnescapeQuot(rest: string)
    ensures UnescapeEntities("&#34;" + rest) == "\"" + UnescapeEntities(rest)
  {
    var t := "&#34;" + rest;
    assert t[1] == '#' && t[2] == '3' && t[3] == '4';
    assert t[..5] == "&#34;" && t[5..] == rest;
  }

  lemma UnescapePlain(c: char, rest: string)
    requires c != '&'
    ensures UnescapeEntities([c] + rest) == [c] + UnescapeEntities(rest)
  {
    var t := [c] + rest;
    assert t[0] == c && t[1..] == rest;
    NotPrefixed(t, "&lt;");
    NotPrefixed(t, "&gt;");
    NotPrefixed(t, "&amp;");
    NotPrefixed(t, "&#39;");
    NotPrefixed(t, "&#34;");
  }

  /** A text whose first character differs from an entity's does not start
      with that entity. */
  lemma NotPrefixed(t: string, entity: string)
    requires |t| > 0 && |entity| > 0 && t[0] != entity[0]
    ensures !Text.HasPrefix(t, entity)
  {
    if |entity| <= |t| {
      assert t[..|entity|][0] == t[0];
    }
  }

  /** Escaping loses nothing: decoding the escaped message gives back the
      original error text. */
  lemma {:induction false} UnescapeEscape(s: string)
    ensures UnescapeEntities(EscapeString(s)) == s
    decreases |s|
  {
    if |s| > 0 {
      UnescapeEscape(s[1..]);
      UnescapeEscapeChar(s[0], EscapeString(s[1..]));
      assert s == [s[0]] + s[1..];
    }
  }
}
