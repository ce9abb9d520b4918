/**
 * HTML escaping of a product name, as Python's `html.escape(s)` does with its
 * default `quote=True`: five successive `str.replace` calls, `&` first.
 */
module HtmlEscape {
  import opened Text

  /** `s` with every occurrence of the character `c` replaced by `rep` (`str.replace`). */
  function ReplaceChar(s: string, c: char, rep: string): string
  {
    if s == [] then []
    else (if s[0] == c then rep else [s[0]]) + ReplaceChar(s[1..], c, rep)
  }

  /** The five replacements in the order `html.escape` performs them. */
  function Escape(s: string): (r: string)
  {
    var s1 := ReplaceChar(s, '&', "&amp;");
    var s2 := ReplaceChar(s1, '<', "&lt;");
    var s3 := ReplaceChar(s2, '>', "&gt;");
    var s4 := ReplaceChar(s3, '"', "&quot;");
    ReplaceChar(s4, '\'', "&#x27;")
  }

  /** The escaped form of one character: the reference, per-character view of escaping. */
  function EscapeChar(c: char): string
  {
    match c
    case '&' => "&amp;"
    case '<' => "&lt;"
    case '>' => "&gt;"
    case '"' => "&quot;"
    case '\'' => "&#x27;"
    case _ => [c]
  }

  /** Escaping character by character, each character independently. */
  function EscapeEach(s: string): string
  {
    if s == [] then [] else EscapeChar(s[0]) + EscapeEach(s[1..])
  }

  /** `s` begins with one of the five entities that escaping produces. */
  predicate BeginsEntity(s: string)
  {
    HasPrefix(s, "&amp;") || HasPrefix(s, "&lt;") || HasPrefix(s, "&gt;")
    || HasPrefix(s, "&quot;") || HasPrefix(s, "&#x27;")
  }

  /** Inverse of escaping: each of the five entities becomes its character again. */
  function Unescape(s: string): string
  {
    if s == [] then []
    else if s[0] != '&' then [s[0]] + Unescape(s[1..])
    else if HasPrefix(s, "&amp;") then "&" + Unescape(s[5..])
    else if HasPrefix(s, "&lt;") then "<" + Unescape(s[4..])
    else if HasPrefix(s, "&gt;") then ">" + Unescape(s[4..])
    else if HasPrefix(s, "&quot;") then "\"" + Unescape(s[6..])
    else if HasPrefix(s, "&#x27;") then "'" + Unescape(s[6..])
    else "&" + Unescape(s[1..])
  }

  lemma {:induction false} ReplaceCharAppend(a: string, b: string, c: char, rep: string)
    ensures ReplaceChar(a + b, c, rep) == ReplaceChar(a, c, rep) + ReplaceChar(b, c, rep)
  {
    if a == [] {
      assert a + b == b;
    } else {
      assert (a + b)[1..] == a[1..] + b;
      ReplaceCharAppend(a[1..], b, c, rep);
    }
  }

  lemma ReplaceCharSingle(d: char, c: char, rep: string)
    ensures ReplaceChar([d], c, rep) == if d == c then rep else [d]
  {
    assert [d][1..] == [];
  }

  /**
   * Because `&` is replaced first and no later replacement text contains any of
   * `<`, `>`, `"`, `'`, the chain of replacements escapes each character exactly
   * once: no entity produced by an earlier step is escaped again.
   */
  lemma {:induction false} EscapeIsPerCharacter(s: string)
    ensures Escape(s) == EscapeEach(s)
  {
    if s != [] {
      var c, t := s[0], s[1..];
      assert s == [c] + t;
      var s1 := ReplaceChar(s, '&', "&amp;");
      ReplaceCharAppend([c], t, '&', "&amp;");
      var t1 := ReplaceChar(t, '&', "&amp;");
      var c1 := ReplaceChar([c], '&', "&amp;");
      ReplaceCharAppend(c1, t1, '<', "&lt;");
      var t2 := ReplaceChar(t1, '<', "&lt;");
      var c2 := ReplaceChar(c1, '<', "&lt;");
      ReplaceCharAppend(c2, t2, '>', "&gt;");
      var t3 := ReplaceChar(t2, '>', "&gt;");
      var c3 := ReplaceChar(c2, '>', "&gt;");
      ReplaceCharAppend(c3, t3, '"', "&quot;");
      var t4 := ReplaceChar(t3, '"', "&quot;");
      var c4 := ReplaceChar(c3, '"', "&quot;");
      ReplaceCharAppend(c4, t4, '\'', "&#x27;");
      var c5 := ReplaceChar(c4, '\'', "&#x27;");
      assert c5 == EscapeChar(c) by { EscapeCharChain(c); }
      EscapeIsPerCharacter(t);
    }
  }

  lemma EscapeCharChain(c: char)
    ensures Escape([c]) == EscapeChar(c)
  {
    if c == '&' {
      EscapeAmpersand();
    } else if c == '<' {
      EscapeLessThan();
    } else if c == '>' {
      EscapeGreaterThan();
    } else if c == '"' {
      EscapeDoubleQuote();
    } else if c == '\'' {
      EscapeApostrophe();
    } else {
      ReplaceCharSingle(c, '&', "&amp;");
      ReplaceCharSingle(c, '<', "&lt;");
      ReplaceCharSingle(c, '>', "&gt;");
      ReplaceCharSingle(c, '"', "&quot;");
      ReplaceCharSingle(c, '\'', "&#x27;");
    }
  }

  lemma EscapeAmpersand()
    ensures Escape("&") == "&amp;"
  {
    var s1 := ReplaceChar("&", '&', "&amp;");
    assert s1 == "&amp;";
    var s2 := ReplaceChar(s1, '<', "&lt;");
    assert s2 == "&amp;";
    var s3 := ReplaceChar(s2, '>', "&gt;");
    assert s3 == "&amp;";
    var s4 := ReplaceChar(s3, '"', "&quot;");
    assert s4 == "&amp;";
  }

  lemma EscapeLessThan()
    ensures Escape("<") == "&lt;"
  {
    var s1 := ReplaceChar("<", '&', "&amp;");
    assert s1 == "<";
    var s2 := ReplaceChar(s1, '<', "&lt;");
    assert s2 == "&lt;";
    var s3 := ReplaceChar(s2, '>', "&gt;");
    assert s3 == "&lt;";
    var s4 := ReplaceChar(s3, '"', "&quot;");
    assert s4 == "&lt;";
  }

  lemma EscapeGreaterThan()
    ensures Escape(">") == "&gt;"
  {
    var s1 := ReplaceChar(">", '&', "&amp;");
    assert s1 == ">";
    var s2 := ReplaceChar(s1, '<', "&lt;");
    assert s2 == ">";
    var s3 := ReplaceChar(s2, '>', "&gt;");
    assert s3 == "&gt;";
    var s4 := ReplaceChar(s3, '"', "&quot;");
    assert s4 == "&gt;";
  }

  lemma EscapeDoubleQuote()
    ensures Escape("\"") == "&quot;"
  {
    var s1 := ReplaceChar("\"", '&', "&amp;");
    assert s1 == "\"";
    var s2 := ReplaceChar(s1, '<', "&lt;");
    assert s2 == "\"";
    var s3 := ReplaceChar(s2, '>', "&gt;");
    assert s3 == "\"";
    var s4 := ReplaceChar(s3, '"', "&quot;");
    assert s4 == "&quot;";
  }

  lemma EscapeApostrophe()
    ensures Escape("'") == "&#x27;"
  {
    var s1 := ReplaceChar("'", '&', "&amp;");
    assert s1 == "'";
    var s2 := ReplaceChar(s1, '<', "&lt;");
    assert s2 == "'";
    var s3 := ReplaceChar(s2, '>', "&gt;");
    assert s3 == "'";
    var s4 := ReplaceChar(s3, '"', "&quot;");
    assert s4 == "'";
  }

  /**
   * An escaped name holds no raw markup character, and every `&` in it begins
   * one of the five entities.
   */
  lemma {:induction false} EscapedIsInert(s: string)
    ensures '<' !in Escape(s) && '>' !in Escape(s) && '"' !in Escape(s) && '\'' !in Escape(s)
    ensures forall i :: 0 <= i < |Escape(s)| && Escape(s)[i] == '&' ==> BeginsEntity(Escape(s)[i..])
  {
    EscapeIsPerCharacter(s);
    EscapeEachInert(s);
  }

  lemma {:induction false} EscapeEachInert(s: string)
    ensures '<' !in EscapeEach(s) && '>' !in EscapeEach(s) && '"' !in EscapeEach(s) && '\'' !in EscapeEach(s)
    ensures forall i :: 0 <= i < |EscapeEach(s)| && EscapeEach(s)[i] == '&' ==> BeginsEntity(EscapeEach(s)[i..])
  {
    if s != [] {
      var h, t := EscapeChar(s[0]), EscapeEach(s[1..]);
      EscapeEachInert(s[1..]);
      EscapeCharInert(s[0]);
      var r := h + t;
      assert r == EscapeEach(s);
      forall i | 0 <= i < |r| && r[i] == '&'
        ensures BeginsEntity(r[i..])
      {
        if i < |h| {
          EntityAhead(s[0], t, i);
        } else {
          assert r[i..] == t[i - |h|..];
        }
      }
    }
  }

  /** The escaped form of one character holds no raw markup character. */
  lemma EscapeCharInert(c: char)
    ensures '<' !in EscapeChar(c) && '>' !in EscapeChar(c) && '"' !in EscapeChar(c) && '\'' !in EscapeChar(c)
  {
  }

  /** An `&` inside the escaped form of one character begins an entity, whatever follows. */
  lemma EntityAhead(c: char, t: string, i: nat)
    requires i < |EscapeChar(c)| && (EscapeChar(c) + t)[i] == '&'
    ensures BeginsEntity((EscapeChar(c) + t)[i..])
  {
    var r := EscapeChar(c) + t;
    if c == '&' {
      assert i == 0 && r[..5] == "&amp;";
    } else if c == '<' {
      assert i == 0 && r[..4] == "&lt;";
    } else if c == '>' {
      assert i == 0 && r[..4] == "&gt;";
    } else if c == '"' {
      assert i == 0 && r[..6] == "&quot;";
    } else if c == '\'' {
      assert i == 0 && r[..6] == "&#x27;";
    }
  }

  /** Unescaping recovers the name exactly: escaping loses nothing. */
  lemma {:induction false} UnescapeEscape(s: string)
    ensures Unescape(Escape(s)) == s
  {
    EscapeIsPerCharacter(s);
    UnescapeEscapeEach(s);
  }

  lemma {:induction false} UnescapeEscapeEach(s: string)
    ensures Unescape(EscapeEach(s)) == s
  {
    if s != [] {
      UnescapeEscapeEach(s[1..]);
      UnescapeStep(s[0], EscapeEach(s[1..]));
      assert s == [s[0]] + s[1..];
    }
  }

  /** Unescaping undoes the escaping of the first character and moves on. */
  lemma UnescapeStep(c: char, rest: string)
    ensures Unescape(EscapeChar(c) + rest) == [c] + Unescape(rest)
  {
    match c
    case '&' => UnescapeEntity("&amp;", '&', rest);
    case '<' => UnescapeEntity("&lt;", '<', rest);
    case '>' => UnescapeEntity("&gt;", '>', rest);
    case '"' => UnescapeEntity("&quot;", '"', rest);
    case '\'' => UnescapeEntity("&#x27;", '\'', rest);
    case _ =>
      var x := [c] + rest;
      assert x[0] == c && x[1..] == rest;
  }

  /** Unescaping reads one entity and the character it stands for. */
  lemma UnescapeEntity(e: string, c: char, rest: string)
    requires (e, c) in {("&amp;", '&'), ("&lt;", '<'), ("&gt;", '>'), ("&quot;", '"'), ("&#x27;", '\'')}
    ensures Unescape(e + rest) == [c] + Unescape(rest)
  {
    var x := e + rest;
    assert x[..|e|] == e && x[|e|..] == rest;
    assert x[0] == '&' && x[1] == e[1];
  }
}
