/** unEscapeHtmlTags: three literal replace-all passes, `&lt;` to `<`, then
    `&gt;` to `>`, then `&amp;` to `&`. The patterns hold no regular-expression
    metacharacters and the replacements no `$` or `\`, so each replaceAll is a
    plain left-to-right replacement of non-overlapping occurrences. */
module HtmlUnescape {

  /** Replaces every occurrence of pat, scanning from the left and resuming
      after each replaced occurrence. */
  function ReplaceAll(s: string, pat: string, rep: string): string
    requires |pat| > 0
    decreases |s|
  {
    if |s| < |pat| then s
    else if s[..|pat|] == pat then rep + ReplaceAll(s[|pat|..], pat, rep)
    else [s[0]] + ReplaceAll(s[1..], pat, rep)
  }

  function UnEscapeHtmlTags(s: string): string
  {
    ReplaceAll(ReplaceAll(ReplaceAll(s, "&lt;", "<"), "&gt;", ">"), "&amp;", "&")
  }

  predicate MatchAt(s: string, pat: string, i: nat)
  {
    i + |pat| <= |s| && s[i..i + |pat|] == pat
  }

  // ----- ReplaceAll is Java's find-and-append loop -----

  lemma MatchShift(s: string, pat: string, j: nat)
    requires s != []
    ensures MatchAt(s[1..], pat, j) <==> MatchAt(s, pat, j + 1)
  {
    if j + 1 + |pat| <= |s| {
      assert s[1..][j..j + |pat|] == s[j + 1..j + 1 + |pat|];
    }
  }

  lemma MatchAtStart(s: string, pat: string)
    requires |pat| <= |s|
    ensures MatchAt(s, pat, 0) <==> s[..|pat|] == pat
  {
    assert s[0..|pat|] == s[..|pat|];
  }

  /** Without an occurrence the text is returned as it is. */
  lemma {:induction false} ReplaceAllNoMatch(s: string, pat: string, rep: string)
    requires |pat| > 0
    requires forall i: nat :: i < |s| ==> !MatchAt(s, pat, i)
    ensures ReplaceAll(s, pat, rep) == s
    decreases |s|
  {
    if |s| >= |pat| {
      MatchAtStart(s, pat);
      forall i: nat | i < |s[1..]| ensures !MatchAt(s[1..], pat, i) {
        MatchShift(s, pat, i);
      }
      ReplaceAllNoMatch(s[1..], pat, rep);
      assert s == [s[0]] + s[1..];
    }
  }

  lemma ReplaceAllSkip(s: string, pat: string, rep: string)
    requires 0 < |pat| <= |s| && !MatchAt(s, pat, 0)
    ensures ReplaceAll(s, pat, rep) == [s[0]] + ReplaceAll(s[1..], pat, rep)
  {
    MatchAtStart(s, pat);
  }

  lemma ReplaceAllHit(s: string, pat: string, rep: string)
    requires 0 < |pat| && MatchAt(s, pat, 0)
    ensures ReplaceAll(s, pat, rep) == rep + ReplaceAll(s[|pat|..], pat, rep)
  {
    MatchAtStart(s, pat);
  }

  /** Text in which no occurrence starts is copied as it is, and the scan
      goes on right after it. */
  lemma {:induction false} ReplaceAllCopiesPrefix(u: string, rest: string, pat: string, rep: string)
    requires |pat| > 0
    requires forall j: nat :: j < |u| ==> !MatchAt(u + rest, pat, j)
    ensures ReplaceAll(u + rest, pat, rep) == u + ReplaceAll(rest, pat, rep)
    decreases |u|
  {
    if u != [] {
      var s := u + rest;
      if |s| >= |pat| {
        ReplaceAllSkip(s, pat, rep);
        assert s[1..] == u[1..] + rest;
        forall j: nat | j < |u[1..]| ensures !MatchAt(u[1..] + rest, pat, j) {
          MatchShift(s, pat, j);
        }
        ReplaceAllCopiesPrefix(u[1..], rest, pat, rep);
        assert u == [u[0]] + u[1..];
      } else {
        assert ReplaceAll(rest, pat, rep) == rest;
      }
    } else {
      assert u + rest == rest;
    }
  }

  /** The text before the leftmost occurrence is copied, the occurrence is
      replaced, and the scan resumes right after it. */
  lemma ReplaceAllFirstMatch(s: string, pat: string, rep: string, i: nat)
    requires |pat| > 0 && MatchAt(s, pat, i)
    requires forall j: nat :: j < i ==> !MatchAt(s, pat, j)
    ensures ReplaceAll(s, pat, rep) == s[..i] + rep + ReplaceAll(s[i + |pat|..], pat, rep)
  {
    var u, v := s[..i], s[i..];
    assert u + v == s;
    ReplaceAllCopiesPrefix(u, v, pat, rep);
    MatchShiftBy(s, pat, i);
    ReplaceAllHit(v, pat, rep);
    assert v[|pat|..] == s[i + |pat|..];
    Regroup(ReplaceAll(s, pat, rep), u, rep, ReplaceAll(s[i + |pat|..], pat, rep));
  }

  lemma Regroup(x: string, a: string, b: string, c: string)
    requires x == a + (b + c)
    ensures x == a + b + c
  {
  }

  lemma MatchShiftBy(s: string, pat: string, i: nat)
    requires i <= |s|
    ensures MatchAt(s[i..], pat, 0) <==> MatchAt(s, pat, i)
  {
    if i + |pat| <= |s| {
      assert s[i..][0..|pat|] == s[i..i + |pat|];
    }
  }

  /** A replacement no longer than the pattern never lengthens the text. */
  lemma {:induction false} ReplaceAllNotLonger(s: string, pat: string, rep: string)
    requires |pat| > 0 && |rep| <= |pat|
    ensures |ReplaceAll(s, pat, rep)| <= |s|
    decreases |s|
  {
    if |s| >= |pat| {
      if s[..|pat|] == pat {
        ReplaceAllNotLonger(s[|pat|..], pat, rep);
      } else {
        ReplaceAllNotLonger(s[1..], pat, rep);
      }
    }
  }

  /** A text without the pattern's first character is left alone. */
  lemma ReplaceAllWithoutLead(s: string, pat: string, rep: string)
    requires |pat| > 0 && pat[0] !in s
    ensures ReplaceAll(s, pat, rep) == s
  {
    forall i: nat | i < |s| ensures !MatchAt(s, pat, i) {
      if i + |pat| <= |s| {
        assert s[i..i + |pat|][0] == s[i];
      }
    }
    ReplaceAllNoMatch(s, pat, rep);
  }

  // ----- Properties of unEscapeHtmlTags -----

  /** Text without `&` passes through unchanged. */
  lemma UnEscapeWithoutAmpersand(s: string)
    requires '&' !in s
    ensures UnEscapeHtmlTags(s) == s
  {
    ReplaceAllWithoutLead(s, "&lt;", "<");
    ReplaceAllWithoutLead(s, "&gt;", ">");
    ReplaceAllWithoutLead(s, "&amp;", "&");
  }

  lemma UnEscapeNotLonger(s: string)
    ensures |UnEscapeHtmlTags(s)| <= |s|
  {
    var s1 := ReplaceAll(s, "&lt;", "<");
    var s2 := ReplaceAll(s1, "&gt;", ">");
    ReplaceAllNotLonger(s, "&lt;", "<");
    ReplaceAllNotLonger(s1, "&gt;", ">");
    ReplaceAllNotLonger(s2, "&amp;", "&");
  }

  // ----- Inverse of the template engine's HTML escaping -----

  /** The HTML escaping of the template engine (FreeMarker's HTML output
      format escapes `<`, `>`, `&`, `"` and `'`) after `passes` of the three
      un-escaping passes: pass 1 restores `<`, pass 2 `>`, pass 3 `&`. */
  function EscapedChar(c: char, passes: nat): string
  {
    if c == '<' then (if passes >= 1 then "<" else "&lt;")
    else if c == '>' then (if passes >= 2 then ">" else "&gt;")
    else if c == '&' then (if passes >= 3 then "&" else "&amp;")
    else if c == '"' then "&quot;"
    else if c == '\'' then "&#39;"
    else [c]
  }

  function Escaped(s: string, passes: nat): string
  {
    if s == [] then [] else EscapedChar(s[0], passes) + Escaped(s[1..], passes)
  }

  /** What the template engine emits for an interpolated text. */
  function EscapeHtml(s: string): string
  {
    Escaped(s, 0)
  }

  lemma {:induction false} AmpFreePrefix(u: string, rest: string, pat: string, rep: string)
    requires |pat| > 0 && pat[0] == '&' && '&' !in u
    ensures ReplaceAll(u + rest, pat, rep) == u + ReplaceAll(rest, pat, rep)
    decreases |u|
  {
    if u != [] {
      var s := u + rest;
      if |s| >= |pat| {
        assert s[..|pat|][0] == u[0] != pat[0];
        assert ReplaceAll(s, pat, rep) == [u[0]] + ReplaceAll(s[1..], pat, rep);
        assert s[1..] == u[1..] + rest;
        AmpFreePrefix(u[1..], rest, pat, rep);
        assert u == [u[0]] + u[1..];
      } else {
        assert ReplaceAll(rest, pat, rep) == rest;
      }
    } else {
      assert u + rest == rest;
    }
  }

  lemma EntityPrefix(chunk: string, rest: string, pat: string, rep: string)
    requires |pat| >= 2 && pat[0] == '&'
    requires |chunk| >= 2 && chunk[0] == '&' && chunk[1] != pat[1] && '&' !in chunk[1..]
    ensures ReplaceAll(chunk + rest, pat, rep) == chunk + ReplaceAll(rest, pat, rep)
  {
    var s := chunk + rest;
    if |s| >= |pat| {
      assert s[..|pat|][1] == chunk[1];
      assert s[1..] == chunk[1..] + rest;
      AmpFreePrefix(chunk[1..], rest, pat, rep);
      assert chunk == [chunk[0]] + chunk[1..];
    }
  }

  lemma PatternPrefix(rest: string, pat: string, rep: string)
    requires |pat| > 0
    ensures ReplaceAll(pat + rest, pat, rep) == rep + ReplaceAll(rest, pat, rep)
  {
    assert (pat + rest)[..|pat|] == pat;
    assert (pat + rest)[|pat|..] == rest;
  }

  function PassPattern(pass: nat): string
    requires pass < 3
  {
    if pass == 0 then "&lt;" else if pass == 1 then "&gt;" else "&amp;"
  }

  function PassReplacement(pass: nat): string
    requires pass < 3
  {
    if pass == 0 then "<" else if pass == 1 then ">" else "&"
  }

  /** One escaped character in front of already restored text. */
  lemma ChunkRestores(c: char, rest: string, pass: nat)
    requires pass < 3
    ensures ReplaceAll(EscapedChar(c, pass) + rest, PassPattern(pass), PassReplacement(pass))
            == EscapedChar(c, pass + 1) + ReplaceAll(rest, PassPattern(pass), PassReplacement(pass))
  {
    var pat, rep, chunk := PassPattern(pass), PassReplacement(pass), EscapedChar(c, pass);
    if chunk == pat {
      PatternPrefix(rest, pat, rep);
    } else if chunk[0] == '&' {
      EntityPrefix(chunk, rest, pat, rep);
    } else {
      AmpFreePrefix(chunk, rest, pat, rep);
    }
  }

  /** Each pass turns exactly its own entity back into its character. */
  lemma {:induction false} PassRestores(s: string, pass: nat)
    requires pass < 3
    ensures ReplaceAll(Escaped(s, pass), PassPattern(pass), PassReplacement(pass)) == Escaped(s, pass + 1)
  {
    if s != [] {
      PassRestores(s[1..], pass);
      ChunkRestores(s[0], Escaped(s[1..], pass), pass);
    }
  }

  /** Un-escaping undoes the engine's escaping of `<`, `>` and `&`; only the
      quote entities remain. */
  lemma UnEscapeInvertsEscape(s: string)
    ensures UnEscapeHtmlTags(EscapeHtml(s)) == Escaped(s, 3)
  {
    var s1 := ReplaceAll(Escaped(s, 0), "&lt;", "<");
    assert s1 == Escaped(s, 1) by {
      assert PassPattern(0) == "&lt;" && PassReplacement(0) == "<";
      PassRestores(s, 0);
    }
    var s2 := ReplaceAll(s1, "&gt;", ">");
    assert s2 == Escaped(s, 2) by {
      assert PassPattern(1) == "&gt;" && PassReplacement(1) == ">";
      PassRestores(s, 1);
    }
    assert ReplaceAll(s2, "&amp;", "&") == Escaped(s, 3) by {
      assert PassPattern(2) == "&amp;" && PassReplacement(2) == "&";
      PassRestores(s, 2);
    }
  }

  lemma {:induction false} EscapedWithoutQuotes(s: string)
    requires '"' !in s && '\'' !in s
    ensures Escaped(s, 3) == s
  {
    if s != [] {
      EscapedWithoutQuotes(s[1..]);
      assert s == [s[0]] + s[1..];
    }
  }

  /** Text without quotes survives escaping by the engine and un-escaping. */
  lemma UnEscapeRoundTrip(s: string)
    requires '"' !in s && '\'' !in s
    ensures UnEscapeHtmlTags(EscapeHtml(s)) == s
  {
    UnEscapeInvertsEscape(s);
    EscapedWithoutQuotes(s);
  }

  lemma UnEscapeTag()
    ensures UnEscapeHtmlTags("&lt;b&gt;") == "<b>"
  {
    var s := "<b>";
    assert s[1..] == "b>" && s[1..][1..] == ">" && s[1..][1..][1..] == "";
    assert EscapeHtml(s) == "&lt;b&gt;";
    UnEscapeRoundTrip(s);
  }

  /** An escaped literal `&lt;` comes out as `&lt;`: the `&amp;` pass runs last. */
  lemma UnEscapeEscapedEntity()
    ensures UnEscapeHtmlTags("&amp;lt;") == "&lt;"
  {
    var s := "&lt;";
    assert s[1..] == "lt;" && s[1..][1..] == "t;" && s[1..][1..][1..] == ";" && s[1..][1..][1..][1..] == "";
    assert EscapeHtml(s) == "&amp;lt;";
    UnEscapeRoundTrip(s);
  }
}
