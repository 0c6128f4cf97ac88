/**
 * `escapeHtml` (0-common.js:13-20): five global replacements applied one
 * after the other. The first rewrites an `&` to `&amp;` unless the ORIGINAL
 * text continues with `\w+;` (one or more of [A-Za-z0-9_], then `;`); the
 * other four rewrite `<`, `>`, `'` and `"`.
 *
 * The module also gives a single-pass reference definition, `Escaped`, and
 * proves the five passes equal to it.
 */
module Escape {
  import opened Text

  /** The JavaScript regular-expression class `\w` (no `u` flag). */
  predicate IsWordChar(c: char)
  {
    'A' <= c <= 'Z' || 'a' <= c <= 'z' || '0' <= c <= '9' || c == '_'
  }

  /** The lookahead `(?=\w+;)`: `t` begins with a run of word characters
      followed by a semicolon. */
  predicate EntityTail(t: string)
  {
    |t| >= 2 && IsWordChar(t[0]) && (t[1] == ';' || EntityTail(t[1..]))
  }

  /** The recursive lookahead means what the regular expression says. */
  lemma {:induction false} EntityTailMeans(t: string)
    ensures EntityTail(t) <==>
      exists k :: 1 <= k < |t| && t[k] == ';' && forall j :: 0 <= j < k ==> IsWordChar(t[j])
  {
    if |t| >= 2 {
      EntityTailMeans(t[1..]);
      if EntityTail(t) {
        if t[1] == ';' {
          assert 1 <= 1 < |t| && t[1] == ';' && forall j :: 0 <= j < 1 ==> IsWordChar(t[j]);
        } else {
          var k :| 1 <= k < |t[1..]| && t[1..][k] == ';' && forall j :: 0 <= j < k ==> IsWordChar(t[1..][j]);
          assert t[k + 1] == ';';
          forall j | 0 <= j < k + 1 ensures IsWordChar(t[j]) {
            if j > 0 { assert t[j] == t[1..][j - 1]; }
          }
        }
      } else {
        forall k | 1 <= k < |t| && t[k] == ';'
          ensures exists j :: 0 <= j < k && !IsWordChar(t[j])
        {
          if IsWordChar(t[0]) {
            assert t[1] != ';';
            assert !EntityTail(t[1..]);
            assert k >= 2;
            assert t[1..][k - 1] == ';';
            var j :| 0 <= j < k - 1 && !IsWordChar(t[1..][j]);
            assert !IsWordChar(t[j + 1]);
          }
        }
      }
    }
  }

  /** The characters `escapeHtml` is there to remove from its output. */
  const Markup: set<char> := {'<', '>', '\'', '"'}

  /** The first pass, `.replace(/&(?!\w+;)/g, '&amp;')`. */
  function EscapeAmp(s: string): (r: string)
  {
    if s == [] then []
    else (if s[0] == '&' && !EntityTail(s[1..]) then "&amp;" else [s[0]]) + EscapeAmp(s[1..])
  }

  /** The four later passes, applied in the source's order. */
  function LaterPasses(s: string): string
  {
    ReplaceAll(ReplaceAll(ReplaceAll(ReplaceAll(s, '<', "&lt;"), '>', "&gt;"), '\'', "&#39;"), '"', "&quot;")
  }

  /** `escapeHtml(html)` as written: five passes over the text. */
  function EscapeHtml(s: string): (r: string)
    ensures forall c :: c in Markup ==> c !in r
    ensures (forall i :: 0 <= i < |s| ==> s[i] != '&' && s[i] !in Markup) ==> r == s
    ensures r == Escaped(s)
  {
    EscapeHtmlIsSinglePass(s);
    LaterPasses(EscapeAmp(s))
  }

  /** What one input character becomes; `rest` is the text after it. */
  function EscapeChar(c: char, rest: string): (r: string)
    ensures c == '&' ==> (r == "&" <==> EntityTail(rest)) && (r == "&amp;" <==> !EntityTail(rest))
    ensures c == '<' ==> r == "&lt;"
    ensures c == '>' ==> r == "&gt;"
    ensures c == '\'' ==> r == "&#39;"
    ensures c == '"' ==> r == "&quot;"
    ensures c != '&' && c !in Markup ==> r == [c]
    ensures forall d :: d in Markup ==> d !in r
  {
    if c == '&' then (if EntityTail(rest) then "&" else "&amp;")
    else if c == '<' then "&lt;"
    else if c == '>' then "&gt;"
    else if c == '\'' then "&#39;"
    else if c == '"' then "&quot;"
    else [c]
  }

  /** Single-pass reference: each character mapped in place, the `&` rule
      looking ahead into the original text. */
  function Escaped(s: string): (r: string)
    ensures forall c :: c in Markup ==> c !in r
    ensures (forall i :: 0 <= i < |s| ==> s[i] != '&' && s[i] !in Markup) ==> r == s
  {
    if s == [] then []
    else EscapeChar(s[0], s[1..]) + Escaped(s[1..])
  }

  lemma LaterPassesAppend(a: string, b: string)
    ensures LaterPasses(a + b) == LaterPasses(a) + LaterPasses(b)
  {
    var p1a, p1b := ReplaceAll(a, '<', "&lt;"), ReplaceAll(b, '<', "&lt;");
    ReplaceAllAppend(a, b, '<', "&lt;");
    var p2a, p2b := ReplaceAll(p1a, '>', "&gt;"), ReplaceAll(p1b, '>', "&gt;");
    ReplaceAllAppend(p1a, p1b, '>', "&gt;");
    var p3a, p3b := ReplaceAll(p2a, '\'', "&#39;"), ReplaceAll(p2b, '\'', "&#39;");
    ReplaceAllAppend(p2a, p2b, '\'', "&#39;");
    ReplaceAllAppend(p3a, p3b, '"', "&quot;");
  }

  /** The later passes turn the first pass's output for one character into
      the single-pass output for it. */
  lemma LaterPassesOneChar(c: char, rest: string)
    ensures LaterPasses(if c == '&' && !EntityTail(rest) then "&amp;" else [c]) == EscapeChar(c, rest)
  {
    if c == '<' {
      assert ReplaceAll([c], '<', "&lt;") == "&lt;";
      LaterPassesPlainChain("&lt;");
    } else if c == '>' {
      assert ReplaceAll([c], '>', "&gt;") == "&gt;";
      assert LaterPasses([c]) == ReplaceAll(ReplaceAll(ReplaceAll([c], '>', "&gt;"), '\'', "&#39;"), '"', "&quot;");
    } else if c == '\'' {
      assert ReplaceAll([c], '\'', "&#39;") == "&#39;";
      assert LaterPasses([c]) == ReplaceAll(ReplaceAll([c], '\'', "&#39;"), '"', "&quot;");
    } else if c == '"' {
      assert ReplaceAll([c], '"', "&quot;") == "&quot;";
    }
  }

  /** The passes after the first one leave markup-free text alone. */
  lemma LaterPassesPlainChain(s: string)
    requires forall c :: c in Markup ==> c !in s
    ensures ReplaceAll(ReplaceAll(ReplaceAll(s, '>', "&gt;"), '\'', "&#39;"), '"', "&quot;") == s
  {
  }

  /** The five passes of `escapeHtml` equal the single-pass mapping. */
  lemma {:induction false} EscapeHtmlIsSinglePass(s: string)
    ensures LaterPasses(EscapeAmp(s)) == Escaped(s)
  {
    if s != [] {
      var head := if s[0] == '&' && !EntityTail(s[1..]) then "&amp;" else [s[0]];
      LaterPassesAppend(head, EscapeAmp(s[1..]));
      LaterPassesOneChar(s[0], s[1..]);
      EscapeHtmlIsSinglePass(s[1..]);
    }
  }

  /** `escapeHtml` is not idempotent: the numeric entity it writes for `'`
      has a `#`, which `\w` does not match, so a second pass re-escapes its `&`. */
  lemma EscapeNotIdempotent()
    ensures EscapeHtml("'") == "&#39;"
    ensures EscapeHtml("&#39;") == "&amp;#39;"
  {
    EscapeQuote();
    EscapeNumericEntity();
  }

  lemma EscapeQuote()
    ensures Escaped("'") == "&#39;"
  {
    assert EscapeChar('\'', "") == "&#39;";
    assert Escaped("'") == EscapeChar('\'', "") + Escaped("");
  }

  lemma EscapeNumericEntity()
    ensures Escaped("&#39;") == "&amp;#39;"
  {
    assert !EntityTail("#39;") by { assert !IsWordChar("#39;"[0]); }
    EscapedPlain("#39;");
    assert "&#39;"[1..] == "#39;";
  }

  lemma EscapedPlain(s: string)
    requires forall i :: 0 <= i < |s| ==> s[i] != '&' && s[i] !in Markup
    ensures Escaped(s) == s
  {
  }

  /** An `&` that starts a named entity already in the text is kept as it is. */
  lemma NamedEntityKept(name: string, tail: string)
    requires |name| >= 1 && forall j :: 0 <= j < |name| ==> IsWordChar(name[j])
    ensures Escaped("&" + name + ";" + tail) == "&" + Escaped(name + ";" + tail)
  {
    var t := name + ";" + tail;
    assert t[|name|] == ';';
    assert forall j :: 0 <= j < |name| ==> t[j] == name[j];
    EntityTailMeans(t);
    assert "&" + name + ";" + tail == ['&'] + t;
    assert (['&'] + t)[1..] == t;
  }

  /** Decoding of the five entities `escapeHtml` writes; any other text is
      kept. */
  function Unescape(t: string): string
  {
    if t == [] then []
    else if |t| >= 5 && t[..5] == "&amp;" then "&" + Unescape(t[5..])
    else if |t| >= 4 && t[..4] == "&lt;" then "<" + Unescape(t[4..])
    else if |t| >= 4 && t[..4] == "&gt;" then ">" + Unescape(t[4..])
    else if |t| >= 5 && t[..5] == "&#39;" then "'" + Unescape(t[5..])
    else if |t| >= 6 && t[..6] == "&quot;" then "\"" + Unescape(t[6..])
    else [t[0]] + Unescape(t[1..])
  }

  /** No `&` of the text already starts something the `&` rule keeps. */
  predicate NoEntityAmp(s: string)
  {
    forall i :: 0 <= i < |s| && s[i] == '&' ==> !EntityTail(s[i + 1..])
  }

  /** Unescaping one escaped character in front of more text. */
  lemma UnescapeOne(c: char, rest: string, tail: string)
    requires c == '&' ==> !EntityTail(rest)
    ensures Unescape(EscapeChar(c, rest) + tail) == [c] + Unescape(tail)
  {
    var e := EscapeChar(c, rest);
    if c == '&' || c in Markup {
      assert e in {"&amp;", "&lt;", "&gt;", "&#39;", "&quot;"};
      UnescapeAfter(e, tail);
      assert Unescape(e) == [c];
    } else {
      UnescapePlain(c, tail);
    }
  }

  lemma UnescapePlain(c: char, tail: string)
    requires c != '&'
    ensures Unescape([c] + tail) == [c] + Unescape(tail)
  {
    var t := [c] + tail;
    assert t[0] == c && t[1..] == tail;
  }

  /** The prefix test of `Unescape` sees an entity written in front of `tail`. */
  lemma UnescapeAfter(e: string, tail: string)
    requires e in {"&amp;", "&lt;", "&gt;", "&#39;", "&quot;"}
    ensures Unescape(e + tail) == Unescape(e) + Unescape(tail)
    ensures |Unescape(e)| == 1
  {
    var t := e + tail;
    assert t[..|e|] == e && t[|e|..] == tail;
    assert e[..|e|] == e && e[|e|..] == [];
    if e != "&amp;" {
      assert !(|t| >= 5 && t[..5] == "&amp;") by { assert t[1] != 'a'; }
      assert !(|e| >= 5 && e[..5] == "&amp;") by { assert e[1] != 'a'; }
    }
    if e == "&#39;" || e == "&quot;" {
      assert !(|t| >= 4 && (t[..4] == "&lt;" || t[..4] == "&gt;")) by { assert t[1] != 'l' && t[1] != 'g'; }
      assert !(|e| >= 4 && (e[..4] == "&lt;" || e[..4] == "&gt;")) by { assert e[1] != 'l' && e[1] != 'g'; }
    }
    if e == "&quot;" {
      assert !(|t| >= 5 && t[..5] == "&#39;") by { assert t[1] != '#'; }
      assert !(|e| >= 5 && e[..5] == "&#39;") by { assert e[1] != '#'; }
    }
    if e == "&gt;" {
      assert !(|t| >= 4 && t[..4] == "&lt;") by { assert t[1] != 'l'; }
      assert !(|e| >= 4 && e[..4] == "&lt;") by { assert e[1] != 'l'; }
    }
  }

  /** Escaping loses nothing on text whose `&`s start no entity:
      unescaping gives the text back. */
  lemma {:induction false} UnescapeEscaped(s: string)
    requires NoEntityAmp(s)
    ensures Unescape(Escaped(s)) == s
  {
    if s != [] {
      assert NoEntityAmp(s[1..]) by {
        forall i | 0 <= i < |s[1..]| && s[1..][i] == '&' ensures !EntityTail(s[1..][i + 1..]) {
          assert s[1..][i + 1..] == s[i + 2..];
        }
      }
      UnescapeEscaped(s[1..]);
      UnescapeOne(s[0], s[1..], Escaped(s[1..]));
      assert s == [s[0]] + s[1..];
    }
  }

  /** Without that condition escaping is not injective: a bare `&` and an
      `&amp;` already in the text escape alike. */
  lemma EscapeMergesEntities()
    ensures EscapeHtml("&") == "&amp;"
    ensures EscapeHtml("&amp;") == "&amp;"
  {
    EscapeBareAmp();
    EscapeAmpEntity();
  }

  lemma EscapeBareAmp()
    ensures Escaped("&") == "&amp;"
  {
    assert EscapeChar('&', "") == "&amp;";
    assert Escaped("&") == EscapeChar('&', "") + Escaped("");
  }

  lemma EscapeAmpEntity()
    ensures Escaped("&amp;") == "&amp;"
  {
    assert EntityTail("amp;") by {
      assert "amp;"[1..] == "mp;" && "mp;"[1..] == "p;";
      assert EntityTail("p;");
      assert EntityTail("mp;");
    }
    EscapedPlain("amp;");
    assert "&amp;"[1..] == "amp;";
  }
}
