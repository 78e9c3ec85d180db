/** `html.escape(text, quote=False)`: three successive replacements. */
module Html {

  function Replace(s: string, c: char, image: string): string {
    if s == "" then "" else (if s[0] == c then image else [s[0]]) + Replace(s[1..], c, image)
  }

  function Escape(s: string): string {
    Replace(Replace(Replace(s, '&', "&amp;"), '<', "&lt;"), '>', "&gt;")
  }

  function EscapeChar(c: char): string {
    match c
    case '&' => "&amp;"
    case '<' => "&lt;"
    case '>' => "&gt;"
    case _ => [c]
  }

  function EscapeEach(s: string): string {
    if s == "" then "" else EscapeChar(s[0]) + EscapeEach(s[1..])
  }

  predicate StartsWith(s: string, prefix: string) {
    |prefix| <= |s| && s[..|prefix|] == prefix
  }

  function Unescape(s: string): string {
    if s == "" then ""
    else if StartsWith(s, "&amp;") then ['&'] + Unescape(s[5..])
    else if StartsWith(s, "&lt;") then ['<'] + Unescape(s[4..])
    else if StartsWith(s, "&gt;") then ['>'] + Unescape(s[4..])
    else [s[0]] + Unescape(s[1..])
  }

  lemma {:induction false} ReplaceConcat(a: string, b: string, c: char, image: string)
    ensures Replace(a + b, c, image) == Replace(a, c, image) + Replace(b, c, image)
  {
    if a == "" {
      assert a + b == b;
    } else {
      assert (a + b)[1..] == a[1..] + b;
      ReplaceConcat(a[1..], b, c, image);
    }
  }

  lemma {:induction false} ReplaceAbsent(s: string, c: char, image: string)
    requires c !in s
    ensures Replace(s, c, image) == s
  {
    if s == "" {
    } else {
      ReplaceAbsent(s[1..], c, image);
    }
  }

  lemma ReplaceOne(c: char, d: char, image: string)
    ensures Replace([c], d, image) == if c == d then image else [c]
  {
    assert Replace([c][1..], d, image) == "";
    assert image + "" == image && [c] + "" == [c];
  }

  /** The later replacements leave what the earlier ones produced alone. */
  lemma EscapeOneChar(c: char)
    ensures Escape([c]) == EscapeChar(c)
  {
    ReplaceOne(c, '&', "&amp;");
    ReplaceOne(c, '<', "&lt;");
    ReplaceOne(c, '>', "&gt;");
    ReplaceAbsent("&amp;", '<', "&lt;");
    ReplaceAbsent("&amp;", '>', "&gt;");
    ReplaceAbsent("&lt;", '>', "&gt;");
  }

  /** Three passes over the text are one pass, character by character. */
  lemma {:induction false} EscapeIsPerChar(s: string)
    ensures Escape(s) == EscapeEach(s)
  {
    if s == "" {
    } else {
      var c, rest := [s[0]], s[1..];
      assert s == c + rest;
      ReplaceConcat(c, rest, '&', "&amp;");
      var c1, r1 := Replace(c, '&', "&amp;"), Replace(rest, '&', "&amp;");
      ReplaceConcat(c1, r1, '<', "&lt;");
      ReplaceConcat(Replace(c1, '<', "&lt;"), Replace(r1, '<', "&lt;"), '>', "&gt;");
      EscapeOneChar(s[0]);
      EscapeIsPerChar(rest);
    }
  }

  /** Escaped text holds no markup character. */
  lemma {:induction false} EscapedHasNoMarkup(s: string)
    ensures '<' !in Escape(s) && '>' !in Escape(s)
  {
    EscapeIsPerChar(s);
    if s == "" {
    } else {
      EscapedHasNoMarkup(s[1..]);
      EscapeIsPerChar(s[1..]);
      assert '<' !in "&amp;" && '<' !in "&lt;" && '<' !in "&gt;";
      assert '>' !in "&amp;" && '>' !in "&lt;" && '>' !in "&gt;";
    }
  }

  lemma EntityPrefix(entity: string, rest: string)
    ensures StartsWith(entity + rest, entity) && (entity + rest)[|entity|..] == rest
    ensures entity != "" ==> entity + rest != "" && (entity + rest)[0] == entity[0]
    ensures |entity| > 1 ==> |entity + rest| > 1 && (entity + rest)[1] == entity[1]
  {
  }

  lemma UnescapeOneChar(c: char, rest: string)
    ensures Unescape(EscapeChar(c) + rest) == [c] + Unescape(rest)
  {
    EntityPrefix(EscapeChar(c), rest);
    var s := EscapeChar(c) + rest;
    if c == '&' {
    } else {
      assert !StartsWith(s, "&amp;");
      if c == '<' {
      } else {
        assert !StartsWith(s, "&lt;");
        if c != '>' {
          assert !StartsWith(s, "&gt;");
        }
      }
    }
  }

  lemma {:induction false} UnescapeEach(s: string)
    ensures Unescape(EscapeEach(s)) == s
  {
    if s == "" {
    } else {
      UnescapeOneChar(s[0], EscapeEach(s[1..]));
      UnescapeEach(s[1..]);
    }
  }

  /** Escaping loses nothing. */
  lemma UnescapeInverts(s: string)
    ensures Unescape(Escape(s)) == s
  {
    EscapeIsPerChar(s);
    UnescapeEach(s);
  }

  /** So two texts have the same encoding only if they are the same text. */
  lemma EscapeInjective(s: string, t: string)
    ensures Escape(s) == Escape(t) <==> s == t
  {
    UnescapeInverts(s);
    UnescapeInverts(t);
  }
}
