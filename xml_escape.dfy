/** `escapeXml`: the five predefined entities of section 4.6 of XML 1.0, applied as five
    global replacements with `&` first, and the unescaping that undoes them. */
module XmlEscape {

  /** `s.replace(/c/g, replacement)` for a one-character pattern. */
  function ReplaceAll(s: string, c: char, replacement: string): (r: string)
    ensures c !in replacement ==> c !in r
    decreases |s|
  {
    if s == [] then []
    else (if s[0] == c then replacement else [s[0]]) + ReplaceAll(s[1..], c, replacement)
  }

  /** `escapeXml(str)`, the replacements in the order the source applies them. */
  function EscapeXml(s: string): string {
    var amp := ReplaceAll(s, '&', "&amp;");
    var lt := ReplaceAll(amp, '<', "&lt;");
    var gt := ReplaceAll(lt, '>', "&gt;");
    var quot := ReplaceAll(gt, '"', "&quot;");
    ReplaceAll(quot, '\'', "&apos;")
  }

  /** The characters markup gives a meaning to. */
  predicate IsMarkup(c: char) {
    c == '<' || c == '>' || c == '"' || c == '\''
  }

  /** One character as it appears in escaped text. */
  function EscapeChar(c: char): string {
    match c
    case '&' => "&amp;"
    case '<' => "&lt;"
    case '>' => "&gt;"
    case '"' => "&quot;"
    case '\'' => "&apos;"
    case _ => [c]
  }

  /** The reference definition: every character escaped on its own, in a single pass. */
  function Escaped(s: string): string
    decreases |s|
  {
    if s == [] then [] else EscapeChar(s[0]) + Escaped(s[1..])
  }

  /** Reads escaped text back: each entity becomes its character. */
  function Unescape(t: string): string
    decreases |t|
  {
    if t == [] then []
    else if IsPrefix("&amp;", t) then "&" + Unescape(t[5..])
    else if IsPrefix("&lt;", t) then "<" + Unescape(t[4..])
    else if IsPrefix("&gt;", t) then ">" + Unescape(t[4..])
    else if IsPrefix("&quot;", t) then "\"" + Unescape(t[6..])
    else if IsPrefix("&apos;", t) then "'" + Unescape(t[6..])
    else [t[0]] + Unescape(t[1..])
  }

  predicate IsPrefix(p: string, t: string) {
    |p| <= |t| && t[..|p|] == p
  }

  /** The text at `t[i..]` opens with one of the five entities. */
  predicate EntityAt(t: string, i: nat)
    requires i <= |t|
  {
    var rest := t[i..];
    IsPrefix("&amp;", rest) || IsPrefix("&lt;", rest) || IsPrefix("&gt;", rest)
    || IsPrefix("&quot;", rest) || IsPrefix("&apos;", rest)
  }

  lemma {:induction false} ReplaceAllConcat(a: string, b: string, c: char, replacement: string)
    ensures ReplaceAll(a + b, c, replacement) == ReplaceAll(a, c, replacement) + ReplaceAll(b, c, replacement)
    decreases |a|
  {
    if a != [] {
      assert (a + b)[1..] == a[1..] + b;
      ReplaceAllConcat(a[1..], b, c, replacement);
    } else {
      assert a + b == b;
    }
  }

  lemma {:induction false} ReplaceAllAbsent(s: string, c: char, replacement: string)
    requires c !in s
    ensures ReplaceAll(s, c, replacement) == s
    decreases |s|
  {
    if s != [] {
      ReplaceAllAbsent(s[1..], c, replacement);
      assert s == [s[0]] + s[1..];
    }
  }

  lemma EscapeXmlConcat(a: string, b: string)
    ensures EscapeXml(a + b) == EscapeXml(a) + EscapeXml(b)
  {
    var amp := ReplaceAll(a + b, '&', "&amp;");
    ReplaceAllConcat(a, b, '&', "&amp;");
    var a1, b1 := ReplaceAll(a, '&', "&amp;"), ReplaceAll(b, '&', "&amp;");
    ReplaceAllConcat(a1, b1, '<', "&lt;");
    var a2, b2 := ReplaceAll(a1, '<', "&lt;"), ReplaceAll(b1, '<', "&lt;");
    ReplaceAllConcat(a2, b2, '>', "&gt;");
    var a3, b3 := ReplaceAll(a2, '>', "&gt;"), ReplaceAll(b2, '>', "&gt;");
    ReplaceAllConcat(a3, b3, '"', "&quot;");
    var a4, b4 := ReplaceAll(a3, '"', "&quot;"), ReplaceAll(b3, '"', "&quot;");
    ReplaceAllConcat(a4, b4, '\'', "&apos;");
  }

  /** The five replacements turn a single character into its escape: no replacement
      text holds a character a later replacement looks for. */
  lemma EscapeXmlChar(c: char)
    ensures EscapeXml([c]) == EscapeChar(c)
  {
    ReplaceOne(c, '&', "&amp;");
    if c == '&' {
      Untouched("&amp;");
    } else {
      ReplaceOne(c, '<', "&lt;");
      if c == '<' {
        Untouched("&lt;");
      } else {
        ReplaceOne(c, '>', "&gt;");
        if c == '>' {
          Untouched("&gt;");
        } else {
          ReplaceOne(c, '"', "&quot;");
          ReplaceOne(c, '\'', "&apos;");
          if c == '"' {
            Untouched("&quot;");
          }
        }
      }
    }
  }

  lemma ReplaceOne(x: char, c: char, replacement: string)
    ensures ReplaceAll([x], c, replacement) == if x == c then replacement else [x]
  {
    assert [x][1..] == [];
  }

  /** Entity text: `&`, `;` and lower-case letters, none of which is replaced. */
  predicate EntityChars(e: string) {
    forall i | 0 <= i < |e| :: e[i] == '&' || e[i] == ';' || 'a' <= e[i] <= 'z'
  }

  lemma Untouched(e: string)
    requires EntityChars(e)
    ensures ReplaceAll(e, '<', "&lt;") == e
    ensures ReplaceAll(e, '>', "&gt;") == e
    ensures ReplaceAll(e, '"', "&quot;") == e
    ensures ReplaceAll(e, '\'', "&apos;") == e
  {
    ReplaceAllAbsent(e, '<', "&lt;");
    ReplaceAllAbsent(e, '>', "&gt;");
    ReplaceAllAbsent(e, '"', "&quot;");
    ReplaceAllAbsent(e, '\'', "&apos;");
  }

  /** The chain of global replacements equals the single-pass reference definition. */
  lemma {:induction false} EscapeXmlIsEscaped(s: string)
    ensures EscapeXml(s) == Escaped(s)
    decreases |s|
  {
    if s == [] {
      assert EscapeXml(s) == [];
    } else {
      assert s == [s[0]] + s[1..];
      EscapeXmlConcat([s[0]], s[1..]);
      EscapeXmlChar(s[0]);
      EscapeXmlIsEscaped(s[1..]);
    }
  }

  /** Unescaping the escaped text gives the original text back. */
  lemma {:induction false} UnescapeEscaped(s: string)
    ensures Unescape(Escaped(s)) == s
    decreases |s|
  {
    if s != [] {
      UnescapeEscaped(s[1..]);
      UnescapeChar(s[0], Escaped(s[1..]));
      assert s == [s[0]] + s[1..];
    }
  }

  lemma UnescapeChar(c: char, rest: string)
    ensures Unescape(EscapeChar(c) + rest) == [c] + Unescape(rest)
  {
    match c
    case '&' => UnescapeAmp(rest);
    case '<' => UnescapeLt(rest);
    case '>' => UnescapeGt(rest);
    case '"' => UnescapeQuot(rest);
    case '\'' => UnescapeApos(rest);
    case _ => UnescapePlain(c, rest);
  }

  lemma UnescapePlain(c: char, rest: string)
    requires c != '&'
    ensures Unescape([c] + rest) == [c] + Unescape(rest)
  {
    var t := [c] + rest;
    assert t[0] == c && t[1..] == rest;
  }

  lemma UnescapeAmp(rest: string)
    ensures Unescape("&amp;" + rest) == "&" + Unescape(rest)
  {
    var t := "&amp;" + rest;
    assert t[..5] == "&amp;" && t[5..] == rest;
  }

  lemma UnescapeLt(rest: string)
    ensures Unescape("&lt;" + rest) == "<" + Unescape(rest)
  {
    var t := "&lt;" + rest;
    assert t[..4] == "&lt;" && t[4..] == rest;
    assert t[1] == 'l';
  }

  lemma UnescapeGt(rest: string)
    ensures Unescape("&gt;" + rest) == ">" + Unescape(rest)
  {
    var t := "&gt;" + rest;
    assert t[..4] == "&gt;" && t[4..] == rest;
    assert t[1] == 'g';
  }

  lemma UnescapeQuot(rest: string)
    ensures Unescape("&quot;" + rest) == "\"" + Unescape(rest)
  {
    var t := "&quot;" + rest;
    assert t[..6] == "&quot;" && t[6..] == rest;
    assert t[1] == 'q';
  }

  lemma UnescapeApos(rest: string)
    ensures Unescape("&apos;" + rest) == "'" + Unescape(rest)
  {
    var t := "&apos;" + rest;
    assert t[..6] == "&apos;" && t[6..] == rest;
    assert t[1] == 'a' && t[2] == 'p';
  }

  /** The escaped text has no markup character, and each `&` in it opens an entity. */
  lemma {:induction false} EscapedIsText(s: string)
    ensures forall i | 0 <= i < |Escaped(s)| :: !IsMarkup(Escaped(s)[i])
    ensures forall i | 0 <= i < |Escaped(s)| && Escaped(s)[i] == '&' :: EntityAt(Escaped(s), i)
    decreases |s|
  {
    if s != [] {
      EscapedIsText(s[1..]);
      var head, tail := EscapeChar(s[0]), Escaped(s[1..]);
      var t := head + tail;
      forall i | 0 <= i < |t|
        ensures !IsMarkup(t[i])
        ensures t[i] == '&' ==> EntityAt(t, i)
      {
        if i < |head| {
          if t[i] == '&' {
            assert i == 0;
            assert t[i..][..|head|] == head;
          }
        } else {
          assert t[i] == tail[i - |head|];
          assert t[i..] == tail[i - |head|..];
        }
      }
    }
  }

  /** `escapeXml` meets both: markup-free output that reads back as the input. */
  lemma EscapeXmlRoundTrip(s: string)
    ensures Unescape(EscapeXml(s)) == s
    ensures forall i | 0 <= i < |EscapeXml(s)| :: !IsMarkup(EscapeXml(s)[i])
    ensures forall i | 0 <= i < |EscapeXml(s)| && EscapeXml(s)[i] == '&' :: EntityAt(EscapeXml(s), i)
  {
    EscapeXmlIsEscaped(s);
    UnescapeEscaped(s);
    EscapedIsText(s);
  }
}
