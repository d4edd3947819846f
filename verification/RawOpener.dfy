/** The hand-written matcher of raw-string openers is the regular expression it stands for. */
module RawOpener {
  import opened Masker

  const PREFIXES: set<string> := {"", "u8", "u", "U", "L"}

  ghost predicate IsDelimiter(d: string) {
    |d| <= MAX_DELIMITER && forall k :: 0 <= k < |d| ==> IsDelimiterChar(d[k])
  }

  /** `(?:u8|u|U|L)?R"([^\s()\\]{0,16})\(` matches `s[i..body]` with the group `d`. */
  ghost predicate Matched(s: string, i: nat, body: nat, prefix: string, d: string) {
    && prefix in PREFIXES && IsDelimiter(d) && i <= body <= |s|
    && s[i..body] == prefix + "R\"" + d + "("
  }

  /** The matcher succeeds exactly on a match of the expression, with its end and its terminator. */
  lemma {:induction false} MatchRawIsExact(s: string, i: nat, body: nat, terminator: string)
    ensures MatchRaw(s, i) == Raw(body, terminator)
       <==> exists prefix, d :: Matched(s, i, body, prefix, d) && terminator == ")" + d + "\""
  {
    if MatchRaw(s, i) == Raw(body, terminator) {
      var p, d := RawPrefix(s, i), s[i + RawPrefix(s, i) + 2..body - 1];
      RunIsDelimiter(s, i + p + 2);
      PrefixIsKnown(s, i, body, d);
      assert Matched(s, i, body, s[i..i + p], d);
    }
    if prefix, d :| Matched(s, i, body, prefix, d) && terminator == ")" + d + "\"" {
      MatchIsFound(s, i, body, prefix, d);
    }
  }

  lemma {:induction false} RunIsDelimiter(s: string, i: nat)
    requires i <= |s|
    ensures forall k :: i <= k < i + DelimiterRun(s, i) ==> IsDelimiterChar(s[k])
    decreases |s| - i
  {
    if i < |s| && IsDelimiterChar(s[i]) { RunIsDelimiter(s, i + 1); }
  }

  lemma {:induction false} RunHasLength(s: string, i: nat, n: nat)
    requires i + n < |s| && !IsDelimiterChar(s[i + n]) && forall k :: i <= k < i + n ==> IsDelimiterChar(s[k])
    ensures DelimiterRun(s, i) == n
    decreases n
  {
    if n > 0 { RunHasLength(s, i + 1, n - 1); }
  }

  lemma {:induction false} PrefixIsKnown(s: string, i: nat, body: nat, d: string)
    requires RawPrefix(s, i) >= 0 && i + RawPrefix(s, i) + 2 < body <= |s|
    requires d == s[i + RawPrefix(s, i) + 2..body - 1] && s[body - 1] == '('
    ensures s[i..i + RawPrefix(s, i)] in PREFIXES
    ensures s[i..body] == s[i..i + RawPrefix(s, i)] + "R\"" + d + "("
  {
    var p := RawPrefix(s, i);
    OpenerSplits(s, i, p);
    TwoParts(s, i, i + p, i + p + 2);
    TwoParts(s, i, i + p + 2, body - 1);
    TwoParts(s, i, body - 1, body);
    assert s[body - 1..body] == "(";
  }

  lemma {:induction false} TwoParts(s: string, a: nat, b: nat, c: nat)
    requires a <= b <= c <= |s|
    ensures s[a..c] == s[a..b] + s[b..c]
  {
  }

  /** Behind the prefix stands `R"`. */
  lemma {:induction false} OpenerSplits(s: string, i: nat, p: nat)
    requires RawPrefix(s, i) == p
    ensures i + p + 2 <= |s| && s[i..i + p] in PREFIXES && s[i + p..i + p + 2] == "R\""
  {
    if p == 2 {
      Split(s, i, "u8", "R\"");
    } else if p == 0 {
      Split(s, i, "", "R\"");
    } else if MatchesAt(s, i, "uR\"") {
      Split(s, i, "u", "R\"");
    } else if MatchesAt(s, i, "UR\"") {
      Split(s, i, "U", "R\"");
    } else {
      Split(s, i, "L", "R\"");
    }
  }

  lemma {:induction false} Split(s: string, i: nat, a: string, b: string)
    requires MatchesAt(s, i, a + b)
    ensures MatchesAt(s, i, a) && MatchesAt(s, i + |a|, b)
  {
    var whole := s[i..i + |a + b|];
    assert whole[..|a|] == a && whole[|a|..] == b;
    assert s[i..i + |a|] == whole[..|a|];
    assert s[i + |a|..i + |a| + |b|] == whole[|a|..];
  }

  lemma {:induction false} MatchIsFound(s: string, i: nat, body: nat, prefix: string, d: string)
    requires Matched(s, i, body, prefix, d)
    ensures MatchRaw(s, i) == Raw(body, ")" + d + "\"")
  {
    MatchSplits(s, i, body, prefix, d);
    PrefixIsFound(s, i, prefix);
    DelimiterIsRun(s, i + |prefix| + 2, d);
    FoundFrom(s, i, |prefix|, d);
  }

  lemma {:induction false} MatchSplits(s: string, i: nat, body: nat, prefix: string, d: string)
    requires Matched(s, i, body, prefix, d)
    ensures var from := i + |prefix| + 2;
      && MatchesAt(s, i, prefix + "R\"") && MatchesAt(s, from, d) && MatchesAt(s, from + |d|, "(")
      && body == from + |d| + 1
  {
    var opener, rest := prefix + "R\"", d + "(";
    assert opener + rest == prefix + "R\"" + d + "(";
    Split(s, i, opener, rest);
    Split(s, i + |opener|, d, "(");
  }

  lemma {:induction false} FoundFrom(s: string, i: nat, p: nat, d: string)
    requires RawPrefix(s, i) == p && |d| <= MAX_DELIMITER && MatchesAt(s, i + p + 2, d)
    requires DelimiterRun(s, i + p + 2) == |d| && i + p + 2 + |d| < |s| && s[i + p + 2 + |d|] == '('
    ensures MatchRaw(s, i) == Raw(i + p + 2 + |d| + 1, ")" + d + "\"")
  {
  }

  lemma {:induction false} DelimiterIsRun(s: string, from: nat, d: string)
    requires IsDelimiter(d) && MatchesAt(s, from, d) && MatchesAt(s, from + |d|, "(")
    ensures DelimiterRun(s, from) == |d| && s[from + |d|] == '('
  {
    var n := |d|;
    assert s[from + n..from + n + 1][0] == '(';
    forall k | from <= k < from + n ensures IsDelimiterChar(s[k]) { assert s[k] == s[from..from + n][k - from]; }
    RunHasLength(s, from, n);
  }

  lemma {:induction false} PrefixIsFound(s: string, i: nat, prefix: string)
    requires prefix in PREFIXES && MatchesAt(s, i, prefix + "R\"")
    ensures RawPrefix(s, i) == |prefix|
  {
    var opener := prefix + "R\"";
    assert s[i] == opener[0] by { assert s[i..i + |opener|][0] == opener[0]; }
    assert s[i + 1] == opener[1] by { assert s[i..i + |opener|][1] == opener[1]; }
    FirstTwo(s, i, "u8R\"");
    FirstTwo(s, i, "uR\"");
    FirstTwo(s, i, "UR\"");
    FirstTwo(s, i, "LR\"");
    FirstTwo(s, i, "R\"");
  }

  lemma {:induction false} FirstTwo(s: string, i: nat, p: string)
    requires |p| >= 2
    ensures MatchesAt(s, i, p) ==> s[i] == p[0] && s[i + 1] == p[1]
  {
    if MatchesAt(s, i, p) {
      assert s[i..i + |p|][0] == p[0];
      assert s[i..i + |p|][1] == p[1];
    }
  }
}
