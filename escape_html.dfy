/**
 * `escapeHtml` of the admin page script: every `&`, `<`, `>`, `"` and `'` of a text is replaced,
 * in one pass, by its HTML entity before the text is put into the genre and author lists.
 */
module HtmlEscape {
  import opened PhpStrings

  /** The five characters the replacement pattern `[&<>"']` matches. */
  predicate IsSpecial(c: char) {
    c == '&' || c == '<' || c == '>' || c == '"' || c == '\''
  }

  /** The characters that may not survive into the markup; `&` does, as the start of an entity. */
  predicate IsMarkup(c: char) {
    c == '<' || c == '>' || c == '"' || c == '\''
  }

  /** The lookup map: a special character's entity. */
  function Entity(c: char): (e: string)
    requires IsSpecial(c)
    ensures 4 <= |e| && e[0] == '&' && e[|e| - 1] == ';'
  {
    match c
    case '&' => "&amp;"
    case '<' => "&lt;"
    case '>' => "&gt;"
    case '"' => "&quot;"
    case _ => "&#039;"
  }

  /** What one character of the input becomes: its entity, or itself. */
  function EscapeChar(c: char): (r: string)
    ensures |r| >= 1
    ensures forall k :: 0 <= k < |r| ==> !IsMarkup(r[k])
  {
    if IsSpecial(c) then Entity(c) else [c]
  }

  /** `text.replace(/[&<>"']/g, m => map[m])`. */
  function Escape(s: string): (r: string)
    ensures |r| >= |s|
    ensures forall k :: 0 <= k < |r| ==> !IsMarkup(r[k])
  {
    if s == [] then [] else EscapeChar(s[0]) + Escape(s[1..])
  }

  predicate HasSpecial(s: string) {
    exists k :: 0 <= k < |s| && IsSpecial(s[k])
  }

  /** The decoder of the five entities, reading left to right; any other character is copied. */
  function Unescape(r: string): string
    decreases |r|
  {
    if r == [] then []
    else if StartsWith(r, "&amp;") then "&" + Unescape(r[5..])
    else if StartsWith(r, "&lt;") then "<" + Unescape(r[4..])
    else if StartsWith(r, "&gt;") then ">" + Unescape(r[4..])
    else if StartsWith(r, "&quot;") then "\"" + Unescape(r[6..])
    else if StartsWith(r, "&#039;") then "'" + Unescape(r[6..])
    else [r[0]] + Unescape(r[1..])
  }

  /** A text whose character at `i` differs from the entity's does not start with that entity. */
  lemma DiffersAt(r: string, prefix: string, i: nat)
    requires i < |r| && i < |prefix| && r[i] != prefix[i]
    ensures !StartsWith(r, prefix)
  {
    if |prefix| <= |r| {
      assert r[..|prefix|][i] == r[i];
    }
  }

  lemma Starts(e: string, rest: string)
    ensures StartsWith(e + rest, e) && (e + rest)[|e|..] == rest
  {
    assert (e + rest)[..|e|] == e;
  }

  lemma UnescapeChar(c: char, rest: string)
    ensures Unescape(EscapeChar(c) + rest) == [c] + Unescape(rest)
  {
    var r := EscapeChar(c) + rest;
    Starts(EscapeChar(c), rest);
    if c == '<' || c == '>' {
      DiffersAt(r, "&amp;", 1);
      if c == '>' {
        DiffersAt(r, "&lt;", 1);
      }
    } else if c == '"' || c == '\'' {
      DiffersAt(r, "&amp;", 1);
      DiffersAt(r, "&lt;", 1);
      DiffersAt(r, "&gt;", 1);
      if c == '\'' {
        DiffersAt(r, "&quot;", 1);
      }
    } else if c != '&' {
      DiffersAt(r, "&amp;", 0);
      DiffersAt(r, "&lt;", 0);
      DiffersAt(r, "&gt;", 0);
      DiffersAt(r, "&quot;", 0);
      DiffersAt(r, "&#039;", 0);
    }
  }

  /** Decoding the entities gives the original text back. */
  lemma {:induction false} UnescapeEscape(s: string)
    ensures Unescape(Escape(s)) == s
    decreases |s|
  {
    if s != [] {
      UnescapeChar(s[0], Escape(s[1..]));
      UnescapeEscape(s[1..]);
    }
  }

  /** Distinct texts are escaped to distinct texts. */
  lemma EscapeInjective(a: string, b: string)
    ensures Escape(a) == Escape(b) <==> a == b
  {
    if Escape(a) == Escape(b) {
      UnescapeEscape(a);
      UnescapeEscape(b);
    }
  }

  /** Escaping a concatenation escapes each part: the replacement works character by character. */
  lemma {:induction false} EscapeAppend(a: string, b: string)
    ensures Escape(a + b) == Escape(a) + Escape(b)
    decreases |a|
  {
    if a == [] {
      assert a + b == b;
    } else {
      var ab := a + b;
      assert ab != [] && ab[0] == a[0] && ab[1..] == a[1..] + b;
      EscapeAppend(a[1..], b);
      calc {
        Escape(ab);
        EscapeChar(a[0]) + Escape(a[1..] + b);
        EscapeChar(a[0]) + (Escape(a[1..]) + Escape(b));
        (EscapeChar(a[0]) + Escape(a[1..])) + Escape(b);
        Escape(a) + Escape(b);
      }
    }
  }

  /** Text with none of the five characters is copied unchanged. */
  lemma {:induction false} PlainTextUnchanged(s: string)
    requires !HasSpecial(s)
    ensures Escape(s) == s
    decreases |s|
  {
    if s != [] {
      assert !IsSpecial(s[0]);
      assert !HasSpecial(s[1..]) by {
        forall k | 0 <= k < |s[1..]| ensures !IsSpecial(s[1..][k]) {
          assert s[1..][k] == s[k + 1];
        }
      }
      PlainTextUnchanged(s[1..]);
    }
  }

  /** The output is exactly as long as the input precisely when the input has none of the five characters. */
  lemma {:induction false} LengthGrowsIffSpecial(s: string)
    ensures |Escape(s)| == |s| <==> !HasSpecial(s)
    decreases |s|
  {
    if s != [] {
      LengthGrowsIffSpecial(s[1..]);
      if HasSpecial(s) && !IsSpecial(s[0]) {
        var k :| 0 <= k < |s| && IsSpecial(s[k]);
        assert s[1..][k - 1] == s[k];
      }
      if HasSpecial(s[1..]) {
        var k :| 0 <= k < |s[1..]| && IsSpecial(s[1..][k]);
        assert s[k + 1] == s[1..][k];
      }
    }
  }

  /** Escaping one special character gives its entity. */
  lemma SinglePass(c: char)
    requires IsSpecial(c)
    ensures Escape([c]) == Entity(c)
  {
    assert [c][1..] == [];
  }

  /** The `&` of an entity is escaped again only by a second call: there is no second pass inside one. */
  lemma EntityEscapedOnlyOnce()
    ensures Escape("<") == "&lt;"
    ensures Escape("&lt;") == "&amp;lt;"
  {
    SinglePass('<');
    SinglePass('&');
    assert !HasSpecial("lt;") by {
      forall k | 0 <= k < |"lt;"| ensures !IsSpecial("lt;"[k]) {
      }
    }
    PlainTextUnchanged("lt;");
    assert "&lt;" == "&" + "lt;";
    EscapeAppend("&", "lt;");
    assert "&amp;" + "lt;" == "&amp;lt;";
  }
}
