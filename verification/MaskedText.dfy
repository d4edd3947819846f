/**
 What the masker does, token by token, with every character spelled out: which stretch of text a
 comment or literal covers, that it comes out blank, and where code resumes. From the start of a
 text these laws decide every character of the output.
 */
module MaskedText {
  import opened Automaton
  import opened Masker
  import opened RawOpener

  /** Position `i` is read as code. */
  ghost predicate CodeAt(s: string, i: nat)
    requires i <= |s|
  {
    ModeBefore(s, i) == Code
  }

  /** The stretch comes out blank, with its newlines kept. */
  ghost predicate Blanks(s: string, i: nat, e: nat)
    requires i <= e <= |s|
  {
    |Masked(s)| == |s| && forall k :: i <= k < e ==> Masked(s)[k] == if s[k] == '\n' then '\n' else ' '
  }

  // ----- From the automaton to the text -----

  lemma {:induction false} ModeSplits<M>(next: (nat, M) -> M, a: nat, i: nat, e: nat, mode: M)
    requires a <= i <= e
    ensures ModeAt(next, a, e, mode) == ModeAt(next, i, e, ModeAt(next, a, i, mode))
    decreases i - a
  {
    if a < i { ModeSplits(next, a + 1, i, e, next(a, mode)); }
  }

  lemma {:induction false} MaskedAt<M>(next: (nat, M) -> M, hides: (nat, M) -> bool, i: nat, k: nat, e: nat, mode: M)
    requires i <= k < e && AllMasked(next, hides, i, e, mode)
    ensures hides(k, ModeAt(next, i, k, mode))
    decreases k - i
  {
    if i < k { MaskedAt(next, hides, i + 1, k, e, next(i, mode)); }
  }

  /** A stretch the automaton hides comes out blank. */
  lemma {:induction false} HiddenIsBlank(s: string, i: nat, e: nat)
    requires i < e <= |s| && CodeAt(s, i) && Masks(s, i, Code)
    requires AllMasked(Step(s), Hides(s), i + 1, e, Next(s, i, Code))
    ensures Blanks(s, i, e) && ModeBefore(s, e) == ModeAt(Step(s), i + 1, e, Next(s, i, Code))
  {
    ModeSplits(Step(s), 0, i, e, Code);
    assert AllMasked(Step(s), Hides(s), i, e, Code);
    forall k | i <= k < e ensures Masked(s)[k] == if s[k] == '\n' then '\n' else ' ' {
      MaskedAt(Step(s), Hides(s), i, k, e, Code);
      ModeSplits(Step(s), 0, i, k, Code);
      RunAt(Step(s), Hides(s), s, 0, Code, k);
    }
  }

  lemma {:induction false} CodeAtStart(s: string)
    ensures CodeAt(s, 0)
  {
  }

  // ----- Comments -----

  /** A line comment up to the newline, which stays, or to the end. */
  lemma {:induction false} LineCommentIsBlank(s: string, i: nat, e: nat)
    requires i + 2 <= e <= |s| && CodeAt(s, i) && s[i] == '/' && s[i + 1] == '/'
    requires (forall k :: i <= k < e ==> s[k] != '\n') && (e < |s| ==> s[e] == '\n')
    ensures Blanks(s, i, e) && (e < |s| ==> Masked(s)[e] == '\n' && CodeAt(s, e + 1))
  {
    assert MatchesAt(s, i, "//");
    LineStretch(s, i + 1, e);
    HiddenIsBlank(s, i, e);
    if e < |s| {
      assert ModeBefore(s, e) == Line;
      ModeSplits(Step(s), 0, e, e + 1, Code);
      MaskingIsPositional(s, e);
    }
  }

  /** A block comment through the first closing pair behind its opener. */
  lemma {:induction false} BlockCommentIsBlank(s: string, i: nat, j: nat)
    requires i + 2 <= j && j + 2 <= |s| && CodeAt(s, i) && s[i] == '/' && s[i + 1] == '*'
    requires s[j] == '*' && s[j + 1] == '/'
    requires forall k :: i + 2 <= k < j ==> !(s[k] == '*' && s[k + 1] == '/')
    ensures Blanks(s, i, j + 2) && CodeAt(s, j + 2)
  {
    BlockBody(s, i, j + 1);
    var step, hides := Step(s), Hides(s);
    assert ModeAt(step, i + 1, j + 1, BlockOpen) == Block(true);
    assert Next(s, j + 1, Block(true)) == Code;
    assert AllMasked(step, hides, j + 1, j + 2, Block(true));
    StretchesJoin(step, hides, i + 1, j + 1, j + 2, BlockOpen);
    HiddenIsBlank(s, i, j + 2);
  }

  /** An unclosed block comment covers the rest. */
  lemma {:induction false} UnclosedCommentIsBlank(s: string, i: nat)
    requires i + 2 <= |s| && CodeAt(s, i) && s[i] == '/' && s[i + 1] == '*'
    requires forall k :: i + 2 <= k < |s| - 1 ==> !(s[k] == '*' && s[k + 1] == '/')
    ensures Blanks(s, i, |s|)
  {
    BlockBody(s, i, |s|);
    HiddenIsBlank(s, i, |s|);
  }

  lemma {:induction false} BlockBody(s: string, i: nat, e: nat)
    requires i + 2 <= e <= |s| && s[i] == '/' && s[i + 1] == '*'
    requires forall k :: i + 2 <= k && k + 1 < e ==> !(s[k] == '*' && s[k + 1] == '/')
    ensures Masks(s, i, Code) && Next(s, i, Code) == BlockOpen
    ensures AllMasked(Step(s), Hides(s), i + 1, e, BlockOpen)
    ensures ModeAt(Step(s), i + 1, e, BlockOpen) == Block(e > i + 2 && s[e - 1] == '*')
  {
    assert MatchesAt(s, i, "/*") && !MatchesAt(s, i, "//") by {
      assert s[i..i + 2] == "/*";
      assert s[i..i + 2][1] == '*' && "//"[1] == '/';
    }
    BlockStretch(s, i + 2, i + 2, e);
    assert Next(s, i + 1, BlockOpen) == Block(false);
  }

  // ----- Quoted literals -----

  /** Characters of a literal: any but a backslash or the quote, or a backslash and any one. */
  ghost predicate Inside(s: string, i: nat, e: nat, q: char)
    requires i <= e <= |s|
    decreases e - i
  {
    || i == e
    || (s[i] == '\\' && i + 2 <= e && Inside(s, i + 2, e, q))
    || (s[i] != '\\' && s[i] != q && Inside(s, i + 1, e, q))
  }

  lemma {:induction false} InsideStays(s: string, from: nat, i: nat, e: nat, q: char)
    requires from <= i <= e <= |s| && Inside(s, i, e, q)
    requires AllMasked(Step(s), Hides(s), from, i, Quoted(q, false))
    requires ModeAt(Step(s), from, i, Quoted(q, false)) == Quoted(q, false)
    ensures AllMasked(Step(s), Hides(s), from, e, Quoted(q, false))
    ensures ModeAt(Step(s), from, e, Quoted(q, false)) == Quoted(q, false)
    decreases e - i
  {
    if i < e {
      if s[i] == '\\' {
        EscapeStretch(s, i, i + 2, q);
        StretchesJoin(Step(s), Hides(s), from, i, i + 2, Quoted(q, false));
        InsideStays(s, from, i + 2, e, q);
      } else {
        PlainQuoted(s, from, i, q);
        InsideStays(s, from, i + 1, e, q);
      }
    }
  }

  lemma {:induction false} QuoteOpens(s: string, i: nat, q: char)
    requires i < |s| && s[i] == q && (q == '"' || q == '\'')
    ensures Masks(s, i, Code) && Next(s, i, Code) == Quoted(q, false)
  {
    FirstTwo(s, i, "//");
    FirstTwo(s, i, "/*");
    FirstTwo(s, i, "u8R\"");
    FirstTwo(s, i, "uR\"");
    FirstTwo(s, i, "UR\"");
    FirstTwo(s, i, "LR\"");
    FirstTwo(s, i, "R\"");
    assert RawPrefix(s, i) == -1;
  }

  /** A string or character literal comes out blank, and code resumes behind its closing quote. */
  lemma {:induction false} LiteralIsBlank(s: string, i: nat, e: nat, q: char)
    requires i < e < |s| && CodeAt(s, i) && (q == '"' || q == '\'') && s[i] == q && s[e] == q
    requires Inside(s, i + 1, e, q)
    ensures Blanks(s, i, e + 1) && CodeAt(s, e + 1)
  {
    QuoteOpens(s, i, q);
    InsideStays(s, i + 1, i + 1, e, q);
    PlainQuoted(s, i + 1, e, q);
    HiddenIsBlank(s, i, e + 1);
  }

  /** An unclosed literal covers the rest, a trailing backslash included. */
  lemma {:induction false} UnclosedLiteralIsBlank(s: string, i: nat, e: nat, q: char)
    requires i < e <= |s| && CodeAt(s, i) && (q == '"' || q == '\'') && s[i] == q
    requires Inside(s, i + 1, e, q) && (e == |s| || (e == |s| - 1 && s[e] == '\\'))
    ensures Blanks(s, i, |s|)
  {
    QuoteOpens(s, i, q);
    InsideStays(s, i + 1, i + 1, e, q);
    if e < |s| {
      EscapeStretch(s, e, |s|, q);
      StretchesJoin(Step(s), Hides(s), i + 1, e, |s|, Quoted(q, false));
    }
    HiddenIsBlank(s, i, |s|);
  }

  // ----- Raw literals -----

  /** The characters Python's `\s` matches. */
  const WHITESPACE: string :=
    "\t\n\U{B}\U{C}\r\U{1C}\U{1D}\U{1E}\U{1F} \U{85}\U{A0}\U{1680}\U{2000}\U{2001}\U{2002}\U{2003}\U{2004}" +
    "\U{2005}\U{2006}\U{2007}\U{2008}\U{2009}\U{200A}\U{2028}\U{2029}\U{202F}\U{205F}\U{3000}"

  /** A delimiter of at most sixteen characters, none of them blank, a parenthesis or a backslash. */
  ghost predicate RawDelimiter(d: string) {
    |d| <= 16 && forall c :: c in d ==> c !in WHITESPACE && c != '(' && c != ')' && c != '\\'
  }

  lemma {:induction false} SpacesAreListed(c: char)
    ensures IsSpace(c) <==> c in WHITESPACE
  {
  }

  lemma {:induction false} DelimitersAreListed(d: string)
    ensures IsDelimiter(d) <==> RawDelimiter(d)
  {
    forall k | 0 <= k < |d| ensures IsDelimiterChar(d[k]) <==> d[k] !in WHITESPACE && d[k] !in {'(', ')', '\\'} {
      SpacesAreListed(d[k]);
    }
    assert forall c :: c in d <==> exists k :: 0 <= k < |d| && d[k] == c;
  }

  /** `prefix R " d (` opens a raw literal at `i` whose body starts at `body`. */
  ghost predicate RawOpens(s: string, i: nat, body: nat, prefix: string, d: string) {
    && (prefix == "" || prefix == "u8" || prefix == "u" || prefix == "U" || prefix == "L") && RawDelimiter(d)
    && i <= body <= |s| && s[i..body] == prefix + "R\"" + d + "("
  }

  lemma {:induction false} RawOpenerIsFound(s: string, i: nat, body: nat, prefix: string, d: string)
    requires i < |s| && RawOpens(s, i, body, prefix, d)
    ensures i < body && Masks(s, i, Code) && Next(s, i, Code) == RawBody(body, ")" + d + "\"")
  {
    DelimitersAreListed(d);
    assert Matched(s, i, body, prefix, d);
    MatchRawIsExact(s, i, body, ")" + d + "\"");
    var whole := prefix + "R\"" + d + "(";
    assert s[i] == whole[0] by { assert s[i..body][0] == whole[0]; }
    FirstTwo(s, i, "//");
    FirstTwo(s, i, "/*");
  }

  /** A raw literal comes out blank through its first terminator, and code resumes there. */
  lemma {:induction false} RawLiteralIsBlank(s: string, i: nat, body: nat, prefix: string, d: string, j: nat)
    requires i < |s| && CodeAt(s, i) && RawOpens(s, i, body, prefix, d)
    requires body <= j && MatchesAt(s, j, ")" + d + "\"")
    requires forall k: nat :: body <= k < j ==> !MatchesAt(s, k, ")" + d + "\"")
    ensures j + |d| + 2 <= |s| && Blanks(s, i, j + |d| + 2) && CodeAt(s, j + |d| + 2)
  {
    var terminator := ")" + d + "\"";
    RawOpenerIsFound(s, i, body, prefix, d);
    RawCloses(s, i, body, terminator, j, j + |terminator|);
    HiddenIsBlank(s, i, j + |terminator|);
  }

  /** An unterminated raw literal covers the rest. */
  lemma {:induction false} UnclosedRawIsBlank(s: string, i: nat, body: nat, prefix: string, d: string)
    requires i < |s| && CodeAt(s, i) && RawOpens(s, i, body, prefix, d)
    requires forall k: nat :: body <= k ==> !MatchesAt(s, k, ")" + d + "\"")
    ensures Blanks(s, i, |s|)
  {
    RawOpenerIsFound(s, i, body, prefix, d);
    RawCloses(s, i, body, ")" + d + "\"", -1, |s|);
    HiddenIsBlank(s, i, |s|);
  }

  // ----- Code -----

  /** Everything else in code stays as it is. */
  lemma {:induction false} CodeIsKept(s: string, i: nat)
    requires i < |s| && CodeAt(s, i) && s[i] != '"' && s[i] != '\''
    requires i + 1 < |s| && s[i] == '/' ==> s[i + 1] != '/' && s[i + 1] != '*'
    requires forall body: nat, prefix, d :: !RawOpens(s, i, body, prefix, d)
    ensures |Masked(s)| == |s| && Masked(s)[i] == s[i] && CodeAt(s, i + 1)
  {
    FirstTwo(s, i, "//");
    FirstTwo(s, i, "/*");
    if MatchRaw(s, i).Raw? {
      var raw := MatchRaw(s, i);
      MatchRawIsExact(s, i, raw.body, raw.terminator);
      var prefix, d :| Matched(s, i, raw.body, prefix, d) && raw.terminator == ")" + d + "\"";
      DelimitersAreListed(d);
      assert RawOpens(s, i, raw.body, prefix, d);
    }
    MaskingIsPositional(s, i);
    ModeSplits(Step(s), 0, i, i + 1, Code);
  }

  /** No quote of either kind survives. */
  lemma {:induction false} NoQuoteSurvives(s: string, k: nat)
    requires k < |Masked(s)|
    ensures Masked(s)[k] != '"' && Masked(s)[k] != '\''
  {
    if k < |s| { NothingLeftToMask(s, k); }
  }
}
