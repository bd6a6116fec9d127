/**
 The HTML escaping done by `MedicalChatbot.formatMessage`: six global
 replacements applied one after the other, `&` first.  The module states the
 chain literally (`ReplaceChain`), states it again as a per-character map
 (`FormatMessage`), proves the two equal, and proves that the output is safe
 to put into `innerHTML` and that it can be decoded back to the input.
 */
module HtmlEscape {

  /** `s.replace(/c/g, rep)` for a one-character pattern and a replacement
      string without `$` (JavaScript expands `$&`, `$1` and the like; the six
      replacement strings of `formatMessage` have none): every occurrence of
      `c`, scanned left to right, is replaced by `rep`, and the replacement
      text is never rescanned. */
  function ReplaceAll(s: string, c: char, rep: string): (r: string)
    ensures c !in s ==> r == s
    ensures c !in rep ==> c !in r
  {
    if s == [] then []
    else (if s[0] == c then rep else [s[0]]) + ReplaceAll(s[1..], c, rep)
  }

  lemma {:induction false} ReplaceAllConcat(a: string, b: string, c: char, rep: string)
    ensures ReplaceAll(a + b, c, rep) == ReplaceAll(a, c, rep) + ReplaceAll(b, c, rep)
  {
    if a == [] {
      assert a + b == b;
    } else {
      var head := if a[0] == c then rep else [a[0]];
      assert (a + b)[0] == a[0] && (a + b)[1..] == a[1..] + b;
      assert ReplaceAll(a + b, c, rep) == head + ReplaceAll(a[1..] + b, c, rep);
      ReplaceAllConcat(a[1..], b, c, rep);
    }
  }

  lemma ReplaceAllSingle(x: char, c: char, rep: string)
    ensures ReplaceAll([x], c, rep) == if x == c then rep else [x]
  {
    assert [x][1..] == [];
  }

  /** The expression of `formatMessage`, replacement by replacement. */
  function ReplaceChain(s: string): string
  {
    var amp := ReplaceAll(s, '&', "&amp;");
    var lt := ReplaceAll(amp, '<', "&lt;");
    var gt := ReplaceAll(lt, '>', "&gt;");
    var quot := ReplaceAll(gt, '"', "&quot;");
    var apos := ReplaceAll(quot, '\'', "&#39;");
    ReplaceAll(apos, '\n', "<br>")
  }

  /** The six characters the chain rewrites. */
  predicate IsSpecial(c: char)
  {
    c == '&' || c == '<' || c == '>' || c == '"' || c == '\'' || c == '\n'
  }

  /** What each character becomes in the output of `formatMessage`. */
  function EscapeChar(c: char): string
  {
    match c
    case '&' => "&amp;"
    case '<' => "&lt;"
    case '>' => "&gt;"
    case '"' => "&quot;"
    case '\'' => "&#39;"
    case '\n' => "<br>"
    case _ => [c]
  }

  /** `formatMessage` as a per-character map. */
  function FormatMessage(s: string): (r: string)
    ensures |r| >= |s|
    ensures s == [] <==> r == []
  {
    if s == [] then [] else EscapeChar(s[0]) + FormatMessage(s[1..])
  }

  lemma {:induction false} ReplaceChainConcat(a: string, b: string)
    ensures ReplaceChain(a + b) == ReplaceChain(a) + ReplaceChain(b)
  {
    var a1, b1 := ReplaceAll(a, '&', "&amp;"), ReplaceAll(b, '&', "&amp;");
    ReplaceAllConcat(a, b, '&', "&amp;");
    var a2, b2 := ReplaceAll(a1, '<', "&lt;"), ReplaceAll(b1, '<', "&lt;");
    ReplaceAllConcat(a1, b1, '<', "&lt;");
    var a3, b3 := ReplaceAll(a2, '>', "&gt;"), ReplaceAll(b2, '>', "&gt;");
    ReplaceAllConcat(a2, b2, '>', "&gt;");
    var a4, b4 := ReplaceAll(a3, '"', "&quot;"), ReplaceAll(b3, '"', "&quot;");
    ReplaceAllConcat(a3, b3, '"', "&quot;");
    var a5, b5 := ReplaceAll(a4, '\'', "&#39;"), ReplaceAll(b4, '\'', "&#39;");
    ReplaceAllConcat(a4, b4, '\'', "&#39;");
    ReplaceAllConcat(a5, b5, '\n', "<br>");
  }

  /** On a single character the chain does what `EscapeChar` says: the
      steps before the matching one leave the character alone, and the steps
      after it find none of their characters in its replacement. */
  lemma ReplaceChainChar(c: char)
    ensures ReplaceChain([c]) == EscapeChar(c)
  {
    if c == '&' {
      ReplaceChainAmp(c);
    } else if c == '<' {
      ReplaceChainLt(c);
    } else if c == '>' {
      ReplaceChainGt(c);
    } else if c == '"' {
      ReplaceChainQuot(c);
    } else if c == '\'' {
      ReplaceChainApos(c);
    } else if c == '\n' {
      ReplaceChainNewline(c);
    } else {
      var s := [c];
      ReplaceAllSingle(c, '&', "&amp;");
      assert ReplaceAll(s, '&', "&amp;") == s;
    }
  }

  // In each of the lemmas below, the `ReplaceAllSingle` calls take the
  // character through the replacements up to its own, and the asserts that
  // later patterns do not occur in its escape let the remaining steps go
  // through unchanged.  Dafny can find both unaided, but only at about the
  // resource limit, so they are spelled out.

  lemma ReplaceChainAmp(c: char)
    requires c == '&'
    ensures ReplaceChain([c]) == EscapeChar(c)
  {
    ReplaceAllSingle(c, '&', "&amp;");
    var e := "&amp;";
    assert '<' !in e;
    assert '>' !in e;
    assert '"' !in e;
    assert '\'' !in e;
    assert '\n' !in e;
  }

  lemma ReplaceChainLt(c: char)
    requires c == '<'
    ensures ReplaceChain([c]) == EscapeChar(c)
  {
    ReplaceAllSingle(c, '&', "&amp;");
    ReplaceAllSingle(c, '<', "&lt;");
    var e := "&lt;";
    assert '>' !in e;
    assert '"' !in e;
    assert '\'' !in e;
    assert '\n' !in e;
  }

  lemma ReplaceChainGt(c: char)
    requires c == '>'
    ensures ReplaceChain([c]) == EscapeChar(c)
  {
    ReplaceAllSingle(c, '&', "&amp;");
    ReplaceAllSingle(c, '<', "&lt;");
    ReplaceAllSingle(c, '>', "&gt;");
    var e := "&gt;";
    assert '"' !in e;
    assert '\'' !in e;
    assert '\n' !in e;
  }

  lemma ReplaceChainQuot(c: char)
    requires c == '"'
    ensures ReplaceChain([c]) == EscapeChar(c)
  {
    ReplaceAllSingle(c, '&', "&amp;");
    ReplaceAllSingle(c, '<', "&lt;");
    ReplaceAllSingle(c, '>', "&gt;");
    ReplaceAllSingle(c, '"', "&quot;");
    var e := "&quot;";
    assert '\'' !in e;
    assert '\n' !in e;
  }

  lemma ReplaceChainApos(c: char)
    requires c == '\''
    ensures ReplaceChain([c]) == EscapeChar(c)
  {
    ReplaceAllSingle(c, '&', "&amp;");
    ReplaceAllSingle(c, '<', "&lt;");
    ReplaceAllSingle(c, '>', "&gt;");
    ReplaceAllSingle(c, '"', "&quot;");
    ReplaceAllSingle(c, '\'', "&#39;");
    var e := "&#39;";
    assert '\n' !in e;
  }

  lemma ReplaceChainNewline(c: char)
    requires c == '\n'
    ensures ReplaceChain([c]) == EscapeChar(c)
  {
    ReplaceAllSingle(c, '&', "&amp;");
    ReplaceAllSingle(c, '<', "&lt;");
    ReplaceAllSingle(c, '>', "&gt;");
    ReplaceAllSingle(c, '"', "&quot;");
    ReplaceAllSingle(c, '\'', "&#39;");
    ReplaceAllSingle(c, '\n', "<br>");
  }

  /** The literal replace chain and the per-character map agree on every input. */
  lemma {:induction false} ChainIsPerCharacter(s: string)
    ensures ReplaceChain(s) == FormatMessage(s)
  {
    if s != [] {
      assert s == [s[0]] + s[1..];
      ReplaceChainConcat([s[0]], s[1..]);
      ReplaceChainChar(s[0]);
      ChainIsPerCharacter(s[1..]);
    }
  }

  /** Escaping distributes over concatenation. */
  lemma {:induction false} FormatMessageConcat(a: string, b: string)
    ensures FormatMessage(a + b) == FormatMessage(a) + FormatMessage(b)
  {
    if a != [] {
      assert (a + b)[0] == a[0] && (a + b)[1..] == a[1..] + b;
      FormatMessageConcat(a[1..], b);
    } else {
      assert a + b == b;
    }
  }

  /** Text without any of the six characters is left exactly as it is, and
      only such text is. */
  lemma {:induction false} FormatMessageIdentity(s: string)
    ensures FormatMessage(s) == s <==> forall i :: 0 <= i < |s| ==> !IsSpecial(s[i])
  {
    if s != [] {
      FormatMessageIdentity(s[1..]);
      if IsSpecial(s[0]) {
        assert |FormatMessage(s)| > |s|;
      } else {
        assert FormatMessage(s) == [s[0]] + FormatMessage(s[1..]);
        if FormatMessage(s) == s {
          assert FormatMessage(s[1..]) == s[1..];
        }
        forall i | 1 <= i < |s|
          ensures s[i] == s[1..][i - 1]
        {
        }
      }
    }
  }

  // ---------------------------------------------------------------------
  // Safety of the output

  predicate StartsWith(s: string, p: string)
  {
    |p| <= |s| && s[..|p|] == p
  }

  /** `s` begins with one of the five entities the chain inserts. */
  predicate BeginsEntity(s: string)
  {
    StartsWith(s, "&amp;") || StartsWith(s, "&lt;") || StartsWith(s, "&gt;")
    || StartsWith(s, "&quot;") || StartsWith(s, "&#39;")
  }

  /** Text that cannot open a tag, close an attribute value or start a
      character reference other than the five inserted ones: no quote of
      either kind and no newline; every `<` opens, and every `>` closes, an
      inserted `<br>`; every `&` begins an inserted entity. */
  predicate Safe(r: string)
  {
    && '"' !in r && '\'' !in r && '\n' !in r
    && (forall i :: 0 <= i < |r| && r[i] == '<' ==> StartsWith(r[i..], "<br>"))
    && (forall i :: 0 <= i < |r| && r[i] == '>' ==> 3 <= i && r[i - 3..i + 1] == "<br>")
    && (forall i :: 0 <= i < |r| && r[i] == '&' ==> BeginsEntity(r[i..]))
  }

  lemma StartsWithExtend(s: string, t: string, p: string)
    requires StartsWith(s, p)
    ensures StartsWith(s + t, p)
  {
    assert (s + t)[..|p|] == s[..|p|];
  }

  lemma BeginsEntityExtend(s: string, t: string)
    requires BeginsEntity(s)
    ensures BeginsEntity(s + t)
  {
    if StartsWith(s, "&amp;") { StartsWithExtend(s, t, "&amp;"); }
    else if StartsWith(s, "&lt;") { StartsWithExtend(s, t, "&lt;"); }
    else if StartsWith(s, "&gt;") { StartsWithExtend(s, t, "&gt;"); }
    else if StartsWith(s, "&quot;") { StartsWithExtend(s, t, "&quot;"); }
    else { StartsWithExtend(s, t, "&#39;"); }
  }

  /** Safe text stays safe when joined to safe text. */
  lemma SafeConcat(a: string, b: string)
    requires Safe(a) && Safe(b)
    ensures Safe(a + b)
  {
    var r := a + b;
    forall i | 0 <= i < |r| && r[i] == '<'
      ensures StartsWith(r[i..], "<br>")
    {
      if i < |a| {
        assert a[i] == '<';
        assert r[i..] == a[i..] + b;
        StartsWithExtend(a[i..], b, "<br>");
      } else {
        assert b[i - |a|] == '<';
        assert r[i..] == b[i - |a|..];
      }
    }
    forall i | 0 <= i < |r| && r[i] == '>'
      ensures 3 <= i && r[i - 3..i + 1] == "<br>"
    {
      if i < |a| {
        assert a[i] == '>';
        assert r[i - 3..i + 1] == a[i - 3..i + 1];
      } else {
        var j := i - |a|;
        assert b[j] == '>';
        assert r[i - 3..i + 1] == b[j - 3..j + 1];
      }
    }
    forall i | 0 <= i < |r| && r[i] == '&'
      ensures BeginsEntity(r[i..])
    {
      if i < |a| {
        assert a[i] == '&';
        assert r[i..] == a[i..] + b;
        BeginsEntityExtend(a[i..], b);
      } else {
        assert b[i - |a|] == '&';
        assert r[i..] == b[i - |a|..];
      }
    }
  }

  /** An entity is safe: its `&` is the one it begins with, and it holds no
      other special character. */
  lemma EntitySafe(e: string)
    requires e != [] && e[0] == '&' && BeginsEntity(e)
    requires forall i :: 1 <= i < |e| ==> !IsSpecial(e[i])
    ensures Safe(e)
  {
  }

  lemma BreakSafe()
    ensures Safe("<br>")
  {
    // Unaided, this can exhaust the resource limit; naming the slices the
    // `<` and `>` clauses of `Safe` look at keeps it cheap.
    var e := "<br>";
    assert e[0..][..4] == e;
    assert e[0..4] == e;
  }

  lemma EscapeCharSafe(c: char)
    ensures Safe(EscapeChar(c))
  {
    var e := EscapeChar(c);
    if c == '\n' {
      BreakSafe();
    } else if IsSpecial(c) {
      StartsWithAppend(e, []);
      assert e + [] == e;
      EntitySafe(e);
    }
  }

  /** The output of `formatMessage` is safe, whatever the input. */
  lemma {:induction false} FormatMessageSafe(s: string)
    ensures Safe(FormatMessage(s))
  {
    if s != [] {
      EscapeCharSafe(s[0]);
      FormatMessageSafe(s[1..]);
      SafeConcat(EscapeChar(s[0]), FormatMessage(s[1..]));
    }
  }

  // ---------------------------------------------------------------------
  // Decoding

  /** Reads the five entities and `<br>` back as the characters they stand
      for; any other character is copied. */
  function Unescape(r: string): (s: string)
    ensures |s| <= |r|
    decreases |r|
  {
    if r == [] then []
    else if StartsWith(r, "&amp;") then "&" + Unescape(r[5..])
    else if StartsWith(r, "&lt;") then "<" + Unescape(r[4..])
    else if StartsWith(r, "&gt;") then ">" + Unescape(r[4..])
    else if StartsWith(r, "&quot;") then "\"" + Unescape(r[6..])
    else if StartsWith(r, "&#39;") then "'" + Unescape(r[5..])
    else if StartsWith(r, "<br>") then "\n" + Unescape(r[4..])
    else [r[0]] + Unescape(r[1..])
  }

  lemma StartsWithAppend(p: string, t: string)
    ensures StartsWith(p + t, p) && (p + t)[|p|..] == t
  {
    assert (p + t)[..|p|] == p;
  }

  /** A mismatch at position `i` rules out the prefix `p`. */
  lemma NotStartsWith(s: string, p: string, i: nat)
    requires i < |p| && i < |s| && s[i] != p[i]
    ensures !StartsWith(s, p)
  {
    assert |p| <= |s| ==> s[..|p|][i] == s[i];
  }

  /** Decoding undoes the escape of one character. */
  lemma UnescapeEscapeChar(c: char, t: string)
    ensures Unescape(EscapeChar(c) + t) == [c] + Unescape(t)
  {
    var e := EscapeChar(c);
    var r := e + t;
    StartsWithAppend(e, t);
    if c == '&' {
    } else if c == '<' {
      NotStartsWith(r, "&amp;", 1);
    } else if c == '>' {
      NotStartsWith(r, "&amp;", 1);
      NotStartsWith(r, "&lt;", 1);
    } else if c == '"' {
      NotStartsWith(r, "&amp;", 1);
      NotStartsWith(r, "&lt;", 1);
      NotStartsWith(r, "&gt;", 1);
    } else if c == '\'' {
      NotStartsWith(r, "&amp;", 1);
      NotStartsWith(r, "&lt;", 1);
      NotStartsWith(r, "&gt;", 1);
      NotStartsWith(r, "&quot;", 1);
    } else if c == '\n' {
      UnescapeNotEntity(r);
    } else {
      UnescapeNotEntity(r);
      NotStartsWith(r, "<br>", 0);
      assert r[1..] == t;
    }
  }

  /** Text that does not begin with `&` begins with no entity. */
  lemma UnescapeNotEntity(r: string)
    requires r != [] && r[0] != '&'
    ensures !BeginsEntity(r)
  {
    NotStartsWith(r, "&amp;", 0);
    NotStartsWith(r, "&lt;", 0);
    NotStartsWith(r, "&gt;", 0);
    NotStartsWith(r, "&quot;", 0);
    NotStartsWith(r, "&#39;", 0);
  }

  /** Decoding the output of `formatMessage` gives back its input. */
  lemma {:induction false} UnescapeFormatMessage(s: string)
    ensures Unescape(FormatMessage(s)) == s
  {
    if s != [] {
      UnescapeEscapeChar(s[0], FormatMessage(s[1..]));
      UnescapeFormatMessage(s[1..]);
    }
  }

  /** Different messages are never rendered the same. */
  lemma FormatMessageInjective(a: string, b: string)
    requires FormatMessage(a) == FormatMessage(b)
    ensures a == b
  {
    UnescapeFormatMessage(a);
    UnescapeFormatMessage(b);
  }
}
