/**
 HTML escaping of error messages before they are shown: the chain of `str.replace`
 calls in `escape_html` (gguf_repo_suite.py), with `&` replaced first. The module
 characterises the output alphabet and shows that the chain is injective by giving the
 decoder that inverts it.
 */
module Html {
  import opened PyStr

  /**
   `escape_html(s)`: `&`, `<`, `>`, `"` and newline replaced, in that order, by `&amp;`,
   `&lt;`, `&gt;`, `&quot;` and `<br/>`. No double quote and no newline survive. (`str(s)`
   is the identity on a string.)
   */
  function EscapeHtml(s: string): (r: string)
    ensures '"' !in r && '\n' !in r
    ensures forall x :: x in s && x !in "&<>\"\n" ==> x in r
  {
    var s1 := ReplaceChar(s, '&', "&amp;");
    var s2 := ReplaceChar(s1, '<', "&lt;");
    var s3 := ReplaceChar(s2, '>', "&gt;");
    var s4 := ReplaceChar(s3, '"', "&quot;");
    ReplaceChar(s4, '\n', "<br/>")
  }

  /** What one input character becomes: the reference, character-by-character reading of the chain. */
  function EscapeChar(ch: char): string {
    match ch
    case '&' => "&amp;"
    case '<' => "&lt;"
    case '>' => "&gt;"
    case '"' => "&quot;"
    case '\n' => "<br/>"
    case _ => [ch]
  }

  function EscapeEach(s: string): string
    decreases |s|
  {
    if |s| == 0 then "" else EscapeChar(s[0]) + EscapeEach(s[1..])
  }

  /** Reads the output back: each entity and each `<br/>` decodes to the character it stands for. */
  function Unescape(r: string): string
    decreases |r|
  {
    if |r| == 0 then ""
    else if StartsWith(r, "&amp;") then "&" + Unescape(r[5..])
    else if StartsWith(r, "&lt;") then "<" + Unescape(r[4..])
    else if StartsWith(r, "&gt;") then ">" + Unescape(r[4..])
    else if StartsWith(r, "&quot;") then "\"" + Unescape(r[6..])
    else if StartsWith(r, "<br/>") then "\n" + Unescape(r[5..])
    else [r[0]] + Unescape(r[1..])
  }

  /** `t` occurs in `r` starting at index `i`. */
  predicate HasAt(r: string, i: nat, t: string) {
    i + |t| <= |r| && r[i..i + |t|] == t
  }

  predicate EntityAt(r: string, i: nat) {
    HasAt(r, i, "&amp;") || HasAt(r, i, "&lt;") || HasAt(r, i, "&gt;") || HasAt(r, i, "&quot;")
  }

  /** Every `&` begins one of the four entities and every `<` begins `<br/>`. */
  predicate Escaped(r: string) {
    && (forall i :: 0 <= i < |r| && r[i] == '&' ==> EntityAt(r, i))
    && (forall i :: 0 <= i < |r| && r[i] == '<' ==> HasAt(r, i, "<br/>"))
  }

  // ---------------------------------------------------------------------------
  // the chain is the character-by-character escape

  function ChainStep(s: string, k: nat): string
    requires k < 5
  {
    match k
    case 0 => ReplaceChar(s, '&', "&amp;")
    case 1 => ReplaceChar(s, '<', "&lt;")
    case 2 => ReplaceChar(s, '>', "&gt;")
    case 3 => ReplaceChar(s, '"', "&quot;")
    case _ => ReplaceChar(s, '\n', "<br/>")
  }

  lemma ChainSteps(s: string)
    ensures EscapeHtml(s) == ChainStep(ChainStep(ChainStep(ChainStep(ChainStep(s, 0), 1), 2), 3), 4)
  {
  }

  lemma ChainStepAppend(a: string, b: string, k: nat)
    requires k < 5
    ensures ChainStep(a + b, k) == ChainStep(a, k) + ChainStep(b, k)
  {
    match k
    case 0 => ReplaceCharAppend(a, b, '&', "&amp;");
    case 1 => ReplaceCharAppend(a, b, '<', "&lt;");
    case 2 => ReplaceCharAppend(a, b, '>', "&gt;");
    case 3 => ReplaceCharAppend(a, b, '"', "&quot;");
    case _ => ReplaceCharAppend(a, b, '\n', "<br/>");
  }

  lemma EscapeHtmlAppend(a: string, b: string)
    ensures EscapeHtml(a + b) == EscapeHtml(a) + EscapeHtml(b)
  {
    ChainSteps(a + b);
    ChainSteps(a);
    ChainSteps(b);
    var a1, b1 := ChainStep(a, 0), ChainStep(b, 0);
    ChainStepAppend(a, b, 0);
    var a2, b2 := ChainStep(a1, 1), ChainStep(b1, 1);
    ChainStepAppend(a1, b1, 1);
    var a3, b3 := ChainStep(a2, 2), ChainStep(b2, 2);
    ChainStepAppend(a2, b2, 2);
    var a4, b4 := ChainStep(a3, 3), ChainStep(b3, 3);
    ChainStepAppend(a3, b3, 3);
    ChainStepAppend(a4, b4, 4);
  }

  lemma ReplaceCharSingle(ch: char, c: char, t: string)
    ensures ReplaceChar([ch], c, t) == if ch == c then t else [ch]
  {
    assert [ch][1..] == [];
  }

  /** The four replacements after the first leave a text alone when it holds none of their targets. */
  lemma LaterStepsAbsent(t: string)
    requires '<' !in t && '>' !in t && '"' !in t && '\n' !in t
    ensures ChainStep(ChainStep(ChainStep(ChainStep(t, 1), 2), 3), 4) == t
  {
    ReplaceCharAbsent(t, '<', "&lt;");
    StepsFromTwoAbsent(t);
  }

  /** A text whose first replacement yields `t` escapes to `t` when `t` holds no later target. */
  lemma ChainFromFirst(s: string, t: string)
    requires ChainStep(s, 0) == t
    requires '<' !in t && '>' !in t && '"' !in t && '\n' !in t
    ensures EscapeHtml(s) == t
  {
    ChainSteps(s);
    LaterStepsAbsent(t);
  }

  /** The same for the last three replacements. */
  lemma StepsFromTwoAbsent(t: string)
    requires '>' !in t && '"' !in t && '\n' !in t
    ensures ChainStep(ChainStep(ChainStep(t, 2), 3), 4) == t
  {
    ReplaceCharAbsent(t, '>', "&gt;");
    StepsFromThreeAbsent(t);
  }

  /** The same for the last two replacements. */
  lemma StepsFromThreeAbsent(t: string)
    requires '"' !in t && '\n' !in t
    ensures ChainStep(ChainStep(t, 3), 4) == t
  {
    ReplaceCharAbsent(t, '"', "&quot;");
    ReplaceCharAbsent(t, '\n', "<br/>");
  }

  /** The chain on a one-character text: each step replaces that character or leaves it. */
  lemma ChainOnSingle(ch: char)
    ensures ch != '&' ==> ChainStep([ch], 0) == [ch]
    ensures ch != '<' ==> ChainStep([ch], 1) == [ch]
    ensures ch != '>' ==> ChainStep([ch], 2) == [ch]
    ensures ch != '"' ==> ChainStep([ch], 3) == [ch]
    ensures ch != '\n' ==> ChainStep([ch], 4) == [ch]
    ensures ChainStep([ch], 0) == if ch == '&' then "&amp;" else [ch]
    ensures ChainStep([ch], 1) == if ch == '<' then "&lt;" else [ch]
    ensures ChainStep([ch], 2) == if ch == '>' then "&gt;" else [ch]
    ensures ChainStep([ch], 3) == if ch == '"' then "&quot;" else [ch]
    ensures ChainStep([ch], 4) == if ch == '\n' then "<br/>" else [ch]
  {
    ReplaceCharSingle(ch, '&', "&amp;");
    ReplaceCharSingle(ch, '<', "&lt;");
    ReplaceCharSingle(ch, '>', "&gt;");
    ReplaceCharSingle(ch, '"', "&quot;");
    ReplaceCharSingle(ch, '\n', "<br/>");
  }

  // The entity is a parameter rather than a literal in the four lemmas below, so that the
  // solver does not evaluate the replacements on the literal text.

  lemma EscapeHtmlAmp(ch: char, t: string)
    requires ch == '&' && t == "&amp;"
    ensures EscapeHtml([ch]) == t
  {
    ReplaceCharSingle(ch, '&', t);
    ChainFromFirst([ch], t);
  }

  lemma EscapeHtmlLt(ch: char, t: string)
    requires ch == '<' && t == "&lt;"
    ensures EscapeHtml([ch]) == t
  {
    ChainSteps([ch]);
    ReplaceCharSingle(ch, '&', "&amp;");
    ReplaceCharSingle(ch, '<', t);
    StepsFromTwoAbsent(t);
  }

  lemma EscapeHtmlGt(ch: char, t: string)
    requires ch == '>' && t == "&gt;"
    ensures EscapeHtml([ch]) == t
  {
    ChainSteps([ch]);
    ReplaceCharSingle(ch, '&', "&amp;");
    ReplaceCharSingle(ch, '<', "&lt;");
    ReplaceCharSingle(ch, '>', t);
    StepsFromThreeAbsent(t);
  }

  lemma EscapeHtmlQuot(ch: char, t: string)
    requires ch == '"' && t == "&quot;"
    ensures EscapeHtml([ch]) == t
  {
    ChainSteps([ch]);
    ReplaceCharSingle(ch, '&', "&amp;");
    ReplaceCharSingle(ch, '<', "&lt;");
    ReplaceCharSingle(ch, '>', "&gt;");
    ReplaceCharSingle(ch, '"', t);
    ReplaceCharAbsent(t, '\n', "<br/>");
  }

  lemma EscapeHtmlNewline(ch: char)
    requires ch == '\n'
    ensures EscapeHtml([ch]) == "<br/>"
  {
    ChainSteps([ch]);
    ChainOnSingle(ch);
  }

  lemma EscapeHtmlPlain(ch: char)
    requires ch !in "&<>\"\n"
    ensures EscapeHtml([ch]) == [ch]
  {
    ChainSteps([ch]);
    ChainOnSingle(ch);
  }

  /** The chain applied to one character yields that character's escape. */
  lemma EscapeHtmlSingle(ch: char)
    ensures EscapeHtml([ch]) == EscapeChar(ch)
  {
    if ch == '&' {
      EscapeHtmlAmp(ch, "&amp;");
    } else if ch == '<' {
      EscapeHtmlLt(ch, "&lt;");
    } else if ch == '>' {
      EscapeHtmlGt(ch, "&gt;");
    } else if ch == '"' {
      EscapeHtmlQuot(ch, "&quot;");
    } else if ch == '\n' {
      EscapeHtmlNewline(ch);
    } else {
      EscapeHtmlPlain(ch);
    }
  }

  /** The replacement chain equals the character-by-character escape: `&` first means no entity is escaped twice. */
  lemma {:induction false} EscapeHtmlIsEscapeEach(s: string)
    ensures EscapeHtml(s) == EscapeEach(s)
    decreases |s|
  {
    if |s| == 0 {
    } else {
      assert s == [s[0]] + s[1..];
      EscapeHtmlAppend([s[0]], s[1..]);
      EscapeHtmlSingle(s[0]);
      EscapeHtmlIsEscapeEach(s[1..]);
    }
  }

  // ---------------------------------------------------------------------------
  // output alphabet

  lemma HasAtAppend(a: string, b: string, i: nat, t: string)
    ensures HasAt(a, i, t) ==> HasAt(a + b, i, t)
    ensures HasAt(b, i, t) ==> HasAt(a + b, |a| + i, t)
  {
    if HasAt(a, i, t) {
      assert (a + b)[i..i + |t|] == a[i..i + |t|];
    }
    if HasAt(b, i, t) {
      assert (a + b)[|a| + i..|a| + i + |t|] == b[i..i + |t|];
    }
  }

  lemma EscapedAppend(a: string, b: string)
    requires Escaped(a) && Escaped(b)
    ensures Escaped(a + b)
  {
    var r := a + b;
    forall i | 0 <= i < |r| && r[i] == '&'
      ensures EntityAt(r, i)
    {
      if i < |a| {
        HasAtAppend(a, b, i, "&amp;");
        HasAtAppend(a, b, i, "&lt;");
        HasAtAppend(a, b, i, "&gt;");
        HasAtAppend(a, b, i, "&quot;");
      } else {
        assert b[i - |a|] == '&';
        HasAtAppend(a, b, i - |a|, "&amp;");
        HasAtAppend(a, b, i - |a|, "&lt;");
        HasAtAppend(a, b, i - |a|, "&gt;");
        HasAtAppend(a, b, i - |a|, "&quot;");
      }
    }
    forall i | 0 <= i < |r| && r[i] == '<'
      ensures HasAt(r, i, "<br/>")
    {
      if i < |a| {
        HasAtAppend(a, b, i, "<br/>");
      } else {
        assert b[i - |a|] == '<';
        HasAtAppend(a, b, i - |a|, "<br/>");
      }
    }
  }

  lemma EscapeCharEscaped(ch: char)
    ensures Escaped(EscapeChar(ch))
  {
    var t := EscapeChar(ch);
    if ch == '&' {
      assert HasAt(t, 0, "&amp;");
    } else if ch == '<' {
      assert HasAt(t, 0, "&lt;");
    } else if ch == '>' {
      assert HasAt(t, 0, "&gt;");
    } else if ch == '"' {
      assert HasAt(t, 0, "&quot;");
    } else if ch == '\n' {
      assert HasAt(t, 0, "<br/>");
    }
  }

  lemma {:induction false} EscapeEachEscaped(s: string)
    ensures Escaped(EscapeEach(s))
    decreases |s|
  {
    if |s| > 0 {
      EscapeCharEscaped(s[0]);
      EscapeEachEscaped(s[1..]);
      EscapedAppend(EscapeChar(s[0]), EscapeEach(s[1..]));
    }
  }

  /**
   Because `&` is replaced first, every `&` in the output begins `&amp;`, `&lt;`, `&gt;` or
   `&quot;`, and every `<` begins `<br/>`.
   */
  lemma EscapeHtmlEscaped(s: string)
    ensures Escaped(EscapeHtml(s))
  {
    EscapeHtmlIsEscapeEach(s);
    EscapeEachEscaped(s);
  }

  // ---------------------------------------------------------------------------
  // decoding and injectivity

  lemma UnescapeAmp(rest: string)
    ensures Unescape("&amp;" + rest) == "&" + Unescape(rest)
  {
    var r := "&amp;" + rest;
    assert r[..5] == "&amp;" && r[5..] == rest;
  }

  lemma UnescapeLt(rest: string)
    ensures Unescape("&lt;" + rest) == "<" + Unescape(rest)
  {
    var r := "&lt;" + rest;
    assert r[1] == 'l';
    assert !StartsWith(r, "&amp;");
    assert r[..4] == "&lt;" && r[4..] == rest;
  }

  lemma UnescapeGt(rest: string)
    ensures Unescape("&gt;" + rest) == ">" + Unescape(rest)
  {
    var r := "&gt;" + rest;
    assert r[1] == 'g';
    assert !StartsWith(r, "&amp;") && !StartsWith(r, "&lt;");
    assert r[..4] == "&gt;" && r[4..] == rest;
  }

  lemma UnescapeQuot(rest: string)
    ensures Unescape("&quot;" + rest) == "\"" + Unescape(rest)
  {
    var r := "&quot;" + rest;
    assert r[1] == 'q';
    assert !StartsWith(r, "&amp;") && !StartsWith(r, "&lt;") && !StartsWith(r, "&gt;");
    assert r[..6] == "&quot;" && r[6..] == rest;
  }

  lemma UnescapeBreak(rest: string)
    ensures Unescape("<br/>" + rest) == "\n" + Unescape(rest)
  {
    var r := "<br/>" + rest;
    assert r[0] == '<';
    assert !StartsWith(r, "&amp;") && !StartsWith(r, "&lt;") && !StartsWith(r, "&gt;") && !StartsWith(r, "&quot;");
    assert r[..5] == "<br/>" && r[5..] == rest;
  }

  lemma UnescapePlain(ch: char, rest: string)
    requires ch != '&' && ch != '<'
    ensures Unescape([ch] + rest) == [ch] + Unescape(rest)
  {
    var r := [ch] + rest;
    assert r[0] == ch;
    assert !StartsWith(r, "&amp;") && !StartsWith(r, "&lt;") && !StartsWith(r, "&gt;") && !StartsWith(r, "&quot;");
    assert !StartsWith(r, "<br/>");
    assert r[1..] == rest;
  }

  lemma UnescapeToken(ch: char, rest: string)
    ensures Unescape(EscapeChar(ch) + rest) == [ch] + Unescape(rest)
  {
    match ch
    case '&' => UnescapeAmp(rest);
    case '<' => UnescapeLt(rest);
    case '>' => UnescapeGt(rest);
    case '"' => UnescapeQuot(rest);
    case '\n' => UnescapeBreak(rest);
    case _ => UnescapePlain(ch, rest);
  }

  lemma {:induction false} UnescapeEscapeEach(s: string)
    ensures Unescape(EscapeEach(s)) == s
    decreases |s|
  {
    if |s| > 0 {
      UnescapeToken(s[0], EscapeEach(s[1..]));
      UnescapeEscapeEach(s[1..]);
      assert s == [s[0]] + s[1..];
    }
  }

  /** Decoding the entities and `<br/>` recovers the input: the escape loses no information. */
  lemma UnescapeEscapeHtml(s: string)
    ensures Unescape(EscapeHtml(s)) == s
  {
    EscapeHtmlIsEscapeEach(s);
    UnescapeEscapeEach(s);
  }

  /** Two different messages never render to the same escaped text. */
  lemma EscapeHtmlInjective(a: string, b: string)
    ensures EscapeHtml(a) == EscapeHtml(b) ==> a == b
  {
    UnescapeEscapeHtml(a);
    UnescapeEscapeHtml(b);
  }
}
